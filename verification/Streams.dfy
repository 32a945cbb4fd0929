/**
 The stream index: the ordered list of entry ids beside the dictionary of
 entries, and the range and read queries answered by bisecting the list.
 */
module Streams {
  import opened Arithmetic
  import opened Bytes
  import opened Options
  import opened Slices
  import opened Sorted

  datatype Id = Id(ts: nat, sq: nat)

  predicate IdLess(a: Id, b: Id) {
    a.ts < b.ts || (a.ts == b.ts && a.sq < b.sq)
  }

  predicate AtMost(a: Id, b: Id) {
    !IdLess(b, a)
  }

  function MaxId(a: Id, b: Id): Id {
    if IdLess(a, b) then b else a
  }

  predicate IsAscending(ids: seq<Id>) {
    forall i, j | 0 <= i < j < |ids| :: IdLess(ids[i], ids[j])
  }

  lemma AscendingAt(ids: seq<Id>, i: int, j: int)
    requires IsAscending(ids) && 0 <= i < |ids| && 0 <= j < |ids|
    ensures IdLess(ids[i], ids[j]) <==> i < j
    ensures ids[i] == ids[j] <==> i == j
  {
  }

  /** The contents of an entry. */
  type Entry = seq<Bytes>

  datatype Index = Index(ids: seq<Id>, values: map<Id, Entry>)

  /** The list is strictly ascending and has the dictionary's keys as its elements. */
  ghost predicate IndexOk(x: Index) {
    IsAscending(x.ids) && forall id :: id in x.ids <==> id in x.values
  }

  // ---------- adding ----------

  /** The forms of an id given to XADD: *, ts-*, and an id written out. */
  datatype NewId = Auto(now: nat) | AutoSeq(ts: nat) | Explicit(id: Id)

  function ChooseId(ids: seq<Id>, spec: NewId): Id {
    match spec
    case Auto(now) =>
      if ids != [] && ids[|ids| - 1].ts >= now then Id(ids[|ids| - 1].ts, ids[|ids| - 1].sq + 1) else Id(now, 0)
    case AutoSeq(ts) =>
      if ids != [] && ids[|ids| - 1].ts == ts then Id(ts, ids[|ids| - 1].sq + 1) else Id(ts, 0)
    case Explicit(id) => id
  }

  /** An id that is not below the clock's, and above the last one stored. */
  ghost predicate IsNext(ids: seq<Id>, now: nat, id: Id) {
    AtMost(Id(now, 0), id) && (ids != [] ==> IdLess(ids[|ids| - 1], id))
  }

  /**
   The id that an addition is to get: the least one that is next to the clock,
   or the next number within a given time, or the one written out.
   */
  ghost predicate IsRequested(ids: seq<Id>, spec: NewId, id: Id) {
    match spec
    case Auto(now) => IsNext(ids, now, id) && forall k | IsNext(ids, now, k) :: AtMost(id, k)
    case AutoSeq(ts) =>
      id.ts == ts && id.sq == if ids != [] && ids[|ids| - 1].ts == ts then ids[|ids| - 1].sq + 1 else 0
    case Explicit(k) => id == k
  }

  /** The id chosen is the one asked for, and no other is. */
  lemma ChosenIsRequested(ids: seq<Id>, spec: NewId, id: Id)
    ensures IsRequested(ids, spec, id) <==> id == ChooseId(ids, spec)
  {
    if spec.Auto? {
      assert IsNext(ids, spec.now, ChooseId(ids, spec));
    }
  }

  predicate Accepts(ids: seq<Id>, id: Id) {
    ids != [] ==> !IdLess(id, ids[|ids| - 1])
  }

  function Added(x: Index, id: Id, fields: Entry): Index {
    Index(x.ids + [id], x.values[id := fields])
  }

  /** What the stream remembers of additions: the ids of producers' entries, by producer and its own id, and counters. */
  datatype Books = Books(sent: map<(Bytes, Bytes), Id>, entriesAdded: nat, pairsAdded: nat, duplicates: nat)

  /** XADD: a pair of producer and idempotent id that was sent before adds nothing and gets the id it got then. */
  function AddedOnce(
      x: Index, b: Books, spec: NewId, fields: Entry, producer: Option<(Bytes, Bytes)>): (Index, Books, Option<Id>)
  {
    if producer.Some? && producer.value in b.sent then
      (x, b.(duplicates := b.duplicates + 1), Some(b.sent[producer.value]))
    else
      var id := ChooseId(x.ids, spec);
      if !Accepts(x.ids, id) then (x, b, None)
      else
        var c := b.(entriesAdded := b.entriesAdded + 1);
        (Added(x, id, fields),
         if producer.Some? then c.(sent := c.sent[producer.value := id], pairsAdded := c.pairsAdded + 1) else c,
         Some(id))
  }

  /** An addition, with the index that it finds. */
  datatype Addition = Addition(x: Index, spec: NewId, fields: Entry, producer: Option<(Bytes, Bytes)>)

  function BooksAfter(adds: seq<Addition>): Books {
    if adds == [] then Books(map[], 0, 0, 0)
    else
      var a := adds[|adds| - 1];
      AddedOnce(a.x, BooksAfter(adds[..|adds| - 1]), a.spec, a.fields, a.producer).1
  }

  /** The n-th addition, of the pair, extended the stream. */
  predicate Extended(adds: seq<Addition>, n: nat, pair: (Bytes, Bytes))
    requires n < |adds|
  {
    var a := adds[n];
    a.producer == Some(pair) && AddedOnce(a.x, BooksAfter(adds[..n]), a.spec, a.fields, a.producer).0 != a.x
  }

  lemma AddingChanges(x: Index, id: Id, fields: Entry)
    ensures Added(x, id, fields) != x
  {
    assert |Added(x, id, fields).ids| == |x.ids| + 1;
  }

  /**
   Whatever else happens to the stream, each pair extends it at most once: a
   pair that was sent has extended it exactly once, and one that was not, never.
   */
  lemma {:induction false} EachPairAddsOnce(adds: seq<Addition>, pair: (Bytes, Bytes))
    ensures pair in BooksAfter(adds).sent <==> exists n | 0 <= n < |adds| :: Extended(adds, n, pair)
    ensures forall m, n | 0 <= m < n < |adds| :: !(Extended(adds, m, pair) && Extended(adds, n, pair))
  {
    if adds != [] {
      var last := |adds| - 1;
      var init := adds[..last];
      EachPairAddsOnce(init, pair);
      forall n: nat | n < last ensures Extended(adds, n, pair) == Extended(init, n, pair) {
        assert adds[..n] == init[..n];
      }
      LastAddition(adds, pair);
    }
  }

  lemma LastAddition(adds: seq<Addition>, pair: (Bytes, Bytes))
    requires adds != []
    ensures
      var last, before := |adds| - 1, BooksAfter(adds[..|adds| - 1]).sent;
      && (pair in BooksAfter(adds).sent <==> pair in before || Extended(adds, last, pair))
      && (Extended(adds, last, pair) ==> pair !in before)
  {
    var a := adds[|adds| - 1];
    AddingChanges(a.x, ChooseId(a.x.ids, a.spec), a.fields);
  }

  /** Once a pair was sent, sending it again is answered with the same id for ever. */
  lemma {:induction false} SentForEver(adds: seq<Addition>, n: nat, pair: (Bytes, Bytes))
    requires n <= |adds| && pair in BooksAfter(adds[..n]).sent
    ensures pair in BooksAfter(adds).sent && BooksAfter(adds).sent[pair] == BooksAfter(adds[..n]).sent[pair]
  {
    if n == |adds| {
      assert adds[..n] == adds;
    } else {
      assert adds[..|adds| - 1][..n] == adds[..n];
      SentForEver(adds[..|adds| - 1], n, pair);
    }
  }

  /** A pair that is sent again adds nothing, and gets the id that its first addition got. */
  lemma RepeatedGetsFirstId(adds: seq<Addition>, n: nat, m: nat, pair: (Bytes, Bytes))
    requires n < m < |adds| && Extended(adds, n, pair) && adds[m].producer == Some(pair)
    ensures
      var first, again := adds[n], adds[m];
      var (x, b, r) := AddedOnce(again.x, BooksAfter(adds[..m]), again.spec, again.fields, again.producer);
      x == again.x && r == AddedOnce(first.x, BooksAfter(adds[..n]), first.spec, first.fields, first.producer).2
  {
    assert adds[..n + 1][..n] == adds[..n] && adds[..m][..n + 1] == adds[..n + 1];
    SentForEver(adds[..m], n + 1, pair);
  }

  /** The counters: one pair for each pair sent, at least as many entries, and no more entries and duplicates than additions. */
  lemma {:induction false} CountersCount(adds: seq<Addition>)
    ensures BooksAfter(adds).pairsAdded == |BooksAfter(adds).sent| <= BooksAfter(adds).entriesAdded
    ensures BooksAfter(adds).entriesAdded + BooksAfter(adds).duplicates <= |adds|
  {
    if adds != [] {
      CountersCount(adds[..|adds| - 1]);
    }
  }

  /** Adding an accepted id keeps the index in order if and only if it is not the last id over again. */
  lemma AddKeepsIndexIff(x: Index, id: Id, fields: Entry)
    requires IndexOk(x) && Accepts(x.ids, id)
    ensures IndexOk(Added(x, id, fields)) <==> x.ids == [] || x.ids[|x.ids| - 1] != id
  {
    var y := Added(x, id, fields);
    if x.ids != [] && x.ids[|x.ids| - 1] == id {
      assert y.ids[|x.ids| - 1] == id && y.ids[|x.ids|] == id;
      assert !IdLess(y.ids[|x.ids| - 1], y.ids[|x.ids|]);
    } else {
      forall i | 0 <= i < |x.ids| ensures IdLess(y.ids[i], id) {
        assert i < |x.ids| - 1 ==> IdLess(x.ids[i], x.ids[|x.ids| - 1]);
      }
      forall k ensures k in y.ids <==> k in y.values {
        assert k in y.ids <==> k in x.ids || k == id;
      }
    }
  }

  /** A run: two XADDs with the same id are both accepted, and the index is out of order. */
  lemma RepeatedIdIsAccepted(id: Id, first: Entry, second: Entry)
    ensures
      var x := Added(Index([], map[]), id, first);
      Accepts([], id) && Accepts(x.ids, id) && !IndexOk(Added(x, id, second))
  {
    AddKeepsIndexIff(Index([], map[]), id, first);
    AddKeepsIndexIff(Added(Index([], map[]), id, first), id, second);
  }

  /** Only an id that is written out can repeat the last one. */
  lemma ChosenIdIsFresh(ids: seq<Id>, spec: NewId)
    requires !spec.Explicit? && ids != []
    ensures ChooseId(ids, spec) != ids[|ids| - 1]
    ensures spec.Auto? ==> IdLess(ids[|ids| - 1], ChooseId(ids, spec))
  {
  }

  // ---------- removing ----------

  function RemovedAt(x: Index, i: int): Index
    requires 0 <= i < |x.ids|
  {
    Index(x.ids[..i] + x.ids[i + 1..], x.values - {x.ids[i]})
  }

  lemma RemoveKeepsIndex(x: Index, i: int)
    requires IndexOk(x) && 0 <= i < |x.ids|
    ensures IndexOk(RemovedAt(x, i))
    ensures forall k :: k in RemovedAt(x, i).ids <==> k in x.ids && k != x.ids[i]
  {
  }

  /** Cutting the list in two, as trimming does: the first part leaves the dictionary. */
  lemma TrimKeepsIndex(x: Index, n: int)
    requires IndexOk(x) && 0 <= n <= |x.ids|
    ensures
      var gone := set k | k in x.ids[..n];
      IndexOk(Index(x.ids[n..], x.values - gone))
  {
  }

  // ---------- ranges ----------

  /** An endpoint of XRANGE: -, +, or an id that is itself in or out of the range. */
  datatype RangeEnd = Lowest | Highest | At(id: Id, exclusive: bool)

  predicate InRange(k: Id, start: RangeEnd, stop: RangeEnd) {
    && (match start
        case Lowest => true
        case Highest => false
        case At(id, exclusive) => IdLess(id, k) || (k == id && !exclusive))
    && (match stop
        case Lowest => false
        case Highest => true
        case At(id, exclusive) => IdLess(k, id) || (k == id && !exclusive))
  }

  type Record = (Id, Entry)

  function Records(x: Index, ids: seq<Id>): (r: seq<Record>)
    requires forall k | k in ids :: k in x.values
    ensures |r| == |ids| && forall i | 0 <= i < |ids| :: r[i] == (ids[i], x.values[ids[i]])
  {
    seq(|ids|, i requires 0 <= i < |ids| => (assert ids[i] in ids; (ids[i], x.values[ids[i]])))
  }

  lemma AscendingIsMonotone(ids: seq<Id>, k: Id)
    requires IsAscending(ids)
    ensures forall i, j | 0 <= i < j < |ids| :: IdLess(ids[j], k) ==> IdLess(ids[i], k)
    ensures forall i, j | 0 <= i < j < |ids| :: !IdLess(k, ids[j]) ==> !IdLess(k, ids[i])
  {
  }

  // ---------- the stream object ----------

  /** An id argument: $ for the last entry, an id, or text that is no id. */
  datatype IdArg = Dollar | Key(id: Id) | Malformed

  /** What ends a command early. */
  datatype Failure = InvalidId | IndexError | KeyError

  datatype Outcome = Done(n: int) | Failed(why: Failure)

  /** The deletion of one argument: how many entries it removed, or why it raised. */
  function DeleteOne(x: Index, arg: IdArg): (Index, Outcome) {
    match arg
    case Malformed => (x, Failed(InvalidId))
    case Dollar => if x.ids == [] then (x, Failed(IndexError)) else (RemovedAt(x, |x.ids| - 1), Done(1))
    case Key(id) => if id in x.ids then (RemovedAt(x, PositionOf(x.ids, id)), Done(1)) else (x, Done(0))
  }

  function PositionOf(ids: seq<Id>, id: Id): (i: nat)
    requires id in ids
    ensures i < |ids| && ids[i] == id
  {
    if ids[0] == id then 0 else 1 + PositionOf(ids[1..], id)
  }

  /** The deletions of XDEL in order, up to the first argument that raises. */
  function DeleteAll(x: Index, args: seq<IdArg>): (Index, Outcome) {
    if args == [] then (x, Done(0))
    else
      var (y, r) := DeleteAll(x, args[..|args| - 1]);
      if r.Failed? then (y, r)
      else
        var (z, t) := DeleteOne(y, args[|args| - 1]);
        (z, if t.Failed? then t else Done(r.n + t.n))
  }

  /**
   One argument of XDEL: text that is no id raises, and so does $ when there is
   no entry; $ removes the last entry, an id the entry that has it, and nothing
   else goes.
   */
  lemma DeleteOneResult(x: Index, arg: IdArg)
    requires IndexOk(x)
    ensures
      var (y, r) := DeleteOne(x, arg);
      if arg.Malformed? then y == x && r == Failed(InvalidId)
      else if arg.Dollar? && x.ids == [] then y == x && r == Failed(IndexError)
      else if arg.Key? && arg.id !in x.ids then y == x && r == Done(0)
      else
        var k := if arg.Dollar? then x.ids[|x.ids| - 1] else arg.id;
        && r == Done(1) && y.values == x.values - {k} && |y.ids| == |x.ids| - 1
        && forall id :: id in y.ids <==> id in x.ids && id != k
  {
    if arg.Dollar? && x.ids != [] {
      RemoveKeepsIndex(x, |x.ids| - 1);
    } else if arg.Key? && arg.id in x.ids {
      RemoveKeepsIndex(x, PositionOf(x.ids, arg.id));
    }
  }

  /** The highest id deleted so far, before and after some ids left the list. */
  ghost predicate NotesDeleted(ids: seq<Id>, left: seq<Id>, before: Id, after: Id) {
    && AtMost(before, after) && (forall k | k in left :: k in ids)
    && (forall k | k in ids && k !in left :: AtMost(k, after))
    && (after == before || (after in ids && after !in left))
  }

  lemma NotesJoin(a: seq<Id>, b: seq<Id>, c: seq<Id>, i: Id, j: Id, k: Id)
    requires NotesDeleted(a, b, i, j) && NotesDeleted(b, c, j, k)
    ensures NotesDeleted(a, c, i, k)
  {
  }

  lemma DeleteOneKeepsIndex(x: Index, arg: IdArg)
    requires IndexOk(x)
    ensures IndexOk(DeleteOne(x, arg).0)
  {
  }

  lemma {:induction false} DeleteAllKeepsIndex(x: Index, args: seq<IdArg>)
    requires IndexOk(x)
    ensures IndexOk(DeleteAll(x, args).0)
  {
    if args != [] {
      DeleteAllKeepsIndex(x, args[..|args| - 1]);
      DeleteOneKeepsIndex(DeleteAll(x, args[..|args| - 1]).0, args[|args| - 1]);
    }
  }

  /** XDEL of ids removes exactly those that are there, and counts them. */
  lemma {:induction false} DeleteAllRemovesExactly(x: Index, args: seq<IdArg>)
    requires IndexOk(x) && forall a | a in args :: a.Key?
    ensures
      var (y, r) := DeleteAll(x, args);
      && r == Done(|x.ids| - |y.ids|)
      && forall k :: k in y.ids <==> k in x.ids && Key(k) !in args
  {
    if args != [] {
      var init, arg := args[..|args| - 1], args[|args| - 1];
      DeleteAllRemovesExactly(x, init);
      DeleteAllKeepsIndex(x, init);
      var y := DeleteAll(x, init).0;
      assert args == init + [arg] && arg in args;
      if arg.id in y.ids {
        RemoveKeepsIndex(y, PositionOf(y.ids, arg.id));
      }
    }
  }

  /** The number of entries in front of those to keep, by length or by least id; None for an id that does not parse. */
  function TrimFrom(ids: seq<Id>, maxLength: Option<int>, minId: Option<IdArg>): Option<int> {
    if maxLength.Some? then Some(|ids| - maxLength.value)
    else if minId.None? then Some(0)
    else
      match minId.value
      case Malformed => None
      case Dollar => Some(if |ids| > 0 then |ids| - 1 else 0)
      case Key(id) => Some(|ids| - |AtLeast(ids, id)|)
  }

  /** How many of them are removed: at most as many as LIMIT says, unless it is 0. */
  function TrimCount(wanted: int, limit: Option<int>): int {
    if limit.None? || limit.value == 0 then Max(wanted, 0) else Min(Max(wanted, 0), limit.value)
  }

  /** Without LIMIT, trimming by length leaves that many entries, and trimming by id exactly those from the least id on. */
  lemma TrimmingIsExact(ids: seq<Id>, maxLength: Option<int>, minId: Option<IdArg>)
    requires IsAscending(ids) && TrimFrom(ids, maxLength, minId).Some?
    ensures
      var left := Drop(ids, TrimCount(TrimFrom(ids, maxLength, minId).value, None));
      && (maxLength.Some? && maxLength.value >= 0 ==> |left| == Min(maxLength.value, |ids|))
      && (maxLength.None? && minId.Some? && minId.value.Key? ==> left == AtLeast(ids, minId.value.id))
  {
    if maxLength.None? && minId.Some? && minId.value.Key? {
      AtLeastIsSuffix(ids, minId.value.id, FirstFrom(ids, minId.value.id));
    }
  }

  /**
   A negative length removes everything, and $ all but the last entry. LIMIT 0
   is no limit; another one caps the number of entries removed, and if it is
   negative just that many entries are left.
   */
  lemma TrimmingWithLimit(ids: seq<Id>, maxLength: Option<int>, minId: Option<IdArg>, limit: int)
    requires TrimFrom(ids, maxLength, minId).Some?
    ensures
      var free := Drop(ids, TrimCount(TrimFrom(ids, maxLength, minId).value, None));
      var left := Drop(ids, TrimCount(TrimFrom(ids, maxLength, minId).value, Some(limit)));
      && (maxLength.Some? && maxLength.value < 0 ==> free == [])
      && (maxLength.None? && minId == Some(Dollar) ==> free == ids[|ids| - Min(1, |ids|)..])
      && (maxLength.None? && minId == None ==> free == ids)
      && (limit == 0 ==> left == free)
      && (limit > 0 ==> |ids| - |left| == Min(|ids| - |free|, limit))
      && (limit < 0 ==> |left| == Min(-limit, |ids|))
      && left == ids[|ids| - |left|..]
  {
    if maxLength.None? && minId.Some? && minId.value.Key? {
      assert |AtLeast(ids, minId.value.id)| <= |ids|;
    }
  }

  /** The number of ids below a key. */
  ghost function FirstFrom(ids: seq<Id>, key: Id): (n: nat)
    requires IsAscending(ids)
    ensures n <= |ids| && forall i | 0 <= i < |ids| :: IdLess(ids[i], key) <==> i < n
  {
    if ids == [] || IdLess(ids[|ids| - 1], key) then |ids|
    else
      var n := FirstFrom(ids[..|ids| - 1], key);
      assert forall i | 0 <= i < |ids| - 1 :: ids[..|ids| - 1][i] == ids[i];
      n
  }

  lemma DeleteNext(x: Index, args: seq<IdArg>, i: nat)
    requires i < |args| && DeleteAll(x, args[..i]).1.Done?
    ensures
      var (y, r) := DeleteAll(x, args[..i]);
      var (z, t) := DeleteOne(y, args[i]);
      DeleteAll(x, args[..i + 1]) == (z, if t.Failed? then t else Done(r.n + t.n))
  {
    assert args[..i + 1][..i] == args[..i];
  }

  lemma {:induction false} DeleteAllStops(x: Index, args: seq<IdArg>, i: nat)
    requires i <= |args| && DeleteAll(x, args[..i]).1.Failed?
    ensures DeleteAll(x, args) == DeleteAll(x, args[..i])
  {
    if i == |args| {
      assert args[..i] == args;
    } else {
      assert args[..|args| - 1][..i] == args[..i];
      DeleteAllStops(x, args[..|args| - 1], i);
    }
  }

  lemma PositionIsUnique(ids: seq<Id>, id: Id, i: nat)
    requires IsAscending(ids) && i < |ids| && ids[i] == id
    ensures PositionOf(ids, id) == i
  {
  }

  /** The bisection finds an id if it is there. */
  lemma FoundIffMember(ids: seq<Id>, key: Id, ind: nat, fromLeft: bool)
    requires IsAscending(ids) && ids != []
    requires if fromLeft then IsCut(ids, (x: Id) => IdLess(x, key), ind) else IsCut(ids, (x: Id) => !IdLess(key, x), ind)
    ensures
      var check := if fromLeft then ind else ind - 1;
      var at := if check < 0 then |ids| - 1 else check;
      && (check < |ids| && ids[at] == key <==> key in ids)
      && (key in ids ==> 0 <= check)
  {
  }

  /** What a cut says of the elements, and where an element equal to the key is. */
  lemma CutOfEnd(ids: seq<Id>, key: Id, ind: nat, fromLeft: bool)
    requires IsAscending(ids)
    requires if fromLeft then IsCut(ids, (x: Id) => IdLess(x, key), ind) else IsCut(ids, (x: Id) => !IdLess(key, x), ind)
    ensures forall i | 0 <= i < |ids| :: if fromLeft then IdLess(ids[i], key) <==> i < ind else IdLess(key, ids[i]) <==> ind <= i
    ensures forall i | 0 <= i < |ids| :: ids[i] == key ==> i == if fromLeft then ind else ind - 1
  {
    forall i | 0 <= i < |ids|
      ensures if fromLeft then IdLess(ids[i], key) <==> i < ind else IdLess(key, ids[i]) <==> ind <= i
    {
      if fromLeft {
        assert ((x: Id) => IdLess(x, key))(ids[i]) <==> i < ind;
      } else {
        assert ((x: Id) => !IdLess(key, x))(ids[i]) <==> i < ind;
      }
    }
    forall i | 0 <= i < |ids| && ids[i] == key ensures i == if fromLeft then ind else ind - 1 {
      if fromLeft {
        assert ind <= i;
        AscendingAt(ids, ind, i);
      } else {
        assert i < ind;
        AscendingAt(ids, i, ind - 1);
      }
    }
  }

  /** The ids that a trim by least id keeps. */
  function AtLeast(ids: seq<Id>, least: Id): seq<Id> {
    Filter(ids, (k: Id) => !IdLess(k, least))
  }

  lemma AtLeastIsSuffix(ids: seq<Id>, least: Id, ind: nat)
    requires IsAscending(ids) && IsCut(ids, (x: Id) => IdLess(x, least), ind)
    ensures AtLeast(ids, least) == ids[ind..]
  {
    CutOfEnd(ids, least, ind, true);
    FilterIsSlice(ids, (k: Id) => !IdLess(k, least), ind, |ids|);
  }

  /** The ids in a range, in order. */
  function Selected(ids: seq<Id>, start: RangeEnd, stop: RangeEnd): seq<Id> {
    Filter(ids, (k: Id) => InRange(k, start, stop))
  }

  lemma SelectedIsSlice(ids: seq<Id>, start: RangeEnd, stop: RangeEnd, a: int, b: int)
    requires 0 <= a <= |ids| && 0 <= b <= |ids|
    requires forall i | 0 <= i < |ids| :: InRange(ids[i], start, Highest) <==> a <= i
    requires forall i | 0 <= i < |ids| :: InRange(ids[i], Lowest, stop) <==> i < b
    ensures Selected(ids, start, stop) == if a <= b then ids[a..b] else []
  {
    forall i | 0 <= i < |ids| ensures InRange(ids[i], start, stop) <==> a <= i < b {
      assert InRange(ids[i], start, stop) <==> InRange(ids[i], start, Highest) && InRange(ids[i], Lowest, stop);
    }
    FilterIsSlice(ids, (k: Id) => InRange(k, start, stop), a, b);
  }

  /**
   An id divides the list into the range up to it and the one from it on, to
   just one of which it belongs.
   */
  lemma RangesMeet(ids: seq<Id>, k: Id, inclusive: bool)
    requires IsAscending(ids)
    ensures
      var upTo, from := Selected(ids, Lowest, At(k, !inclusive)), Selected(ids, At(k, inclusive), Highest);
      upTo + from == ids && (k in ids ==> (k in upTo <==> inclusive) && (k in from <==> !inclusive))
  {
    var n := if inclusive then FirstAbove(ids, k) else FirstFrom(ids, k);
    RangesUpTo(ids, k, inclusive, n);
    assert ids[..n] + ids[n..] == ids;
    assert !IdLess(k, k);
  }

  lemma RangesUpTo(ids: seq<Id>, k: Id, inclusive: bool, n: nat)
    requires n <= |ids|
    requires forall i | 0 <= i < |ids| :: i < n <==> IdLess(ids[i], k) || (inclusive && ids[i] == k)
    ensures Selected(ids, Lowest, At(k, !inclusive)) == ids[..n] && Selected(ids, At(k, inclusive), Highest) == ids[n..]
  {
    SelectedIsSlice(ids, Lowest, At(k, !inclusive), 0, n);
    SelectedIsSlice(ids, At(k, inclusive), Highest, n, |ids|);
  }

  /** From - to + is everything, and the other way round nothing. */
  lemma WholeRange(ids: seq<Id>)
    ensures Selected(ids, Lowest, Highest) == ids && Selected(ids, Highest, Lowest) == []
  {
    SelectedIsSlice(ids, Lowest, Highest, 0, |ids|);
    SelectedIsSlice(ids, Highest, Lowest, |ids|, 0);
  }

  /** A range between two ids is what the ranges up to the one and from the other have in common. */
  lemma RangesCross(ids: seq<Id>, start: RangeEnd, stop: RangeEnd, k: Id)
    ensures k in Selected(ids, start, stop) <==> k in Selected(ids, start, Highest) && k in Selected(ids, Lowest, stop)
  {
  }

  /** The position after a key delimits the ids above it. */
  lemma AfterIsSuffix(ids: seq<Id>, key: Id, start: nat)
    requires IsAscending(ids) && start <= |ids|
    requires forall i | 0 <= i < |ids| :: IdLess(key, ids[i]) <==> start <= i
    ensures Later(ids, key) == ids[start..]
  {
    FilterIsSlice(ids, (k: Id) => IdLess(key, k), start, |ids|);
  }

  /** The first i arguments of XDEL were carried out. */
  ghost predicate DeletedUpTo(
      start: Index, startNoted: Id, args: seq<IdArg>, i: nat, x: Index, noted: Id, res: int)
  {
    && i <= |args| && IndexOk(x) && DeleteAll(start, args[..i]) == (x, Done(res))
    && NotesDeleted(start.ids, x.ids, startNoted, noted)
  }

  lemma DeletedNext(
      start: Index, startNoted: Id, args: seq<IdArg>, i: nat, x: Index, noted: Id, res: int,
      y: Index, noted': Id, one: Outcome)
    requires DeletedUpTo(start, startNoted, args, i, x, noted, res) && i < |args|
    requires DeleteOne(x, args[i]) == (y, one) && IndexOk(y) && NotesDeleted(x.ids, y.ids, noted, noted')
    ensures one.Done? ==> DeletedUpTo(start, startNoted, args, i + 1, y, noted', res + one.n)
    ensures one.Failed? ==> DeleteAll(start, args) == (y, one) && NotesDeleted(start.ids, y.ids, startNoted, noted')
  {
    DeleteNext(start, args, i);
    NotesJoin(start.ids, x.ids, y.ids, startNoted, noted, noted');
    if one.Failed? {
      DeleteAllStops(start, args, i + 1);
    }
  }

  class XStream {
    var ids: seq<Id>
    var values: map<Id, Entry>
    var maxDeleted: Id
    var books: Books

    ghost predicate Valid()
      reads this
    {
      IndexOk(Abs())
    }

    function Abs(): Index
      reads this
    {
      Index(ids, values)
    }

    constructor ()
      ensures Valid() && ids == [] && maxDeleted == Id(0, 0) && books == Books(map[], 0, 0, 0)
    {
      ids, values, maxDeleted, books := [], map[], Id(0, 0), Books(map[], 0, 0, 0);
    }

    /** XADD. The index stays valid if and only if the id does not repeat the last one. */
    method Add(spec: NewId, fields: Entry, producer: Option<(Bytes, Bytes)>) returns (r: Option<Id>)
      requires Valid()
      modifies this`ids, this`values, this`books
      ensures (Abs(), books, r) == AddedOnce(old(Abs()), old(books), spec, fields, producer)
      ensures
        var was, sent := old(ids), old(books.sent);
        if producer.Some? && producer.value in sent then
          && r == Some(sent[producer.value]) && Abs() == old(Abs())
          && books == old(books).(duplicates := old(books.duplicates) + 1)
        else if was != [] && (match spec
                              case Auto(_) => false
                              case AutoSeq(ts) => ts < was[|was| - 1].ts
                              case Explicit(id) => IdLess(id, was[|was| - 1])) then
          r == None && Abs() == old(Abs()) && books == old(books)
        else
          && r.Some? && IsRequested(was, spec, r.value)
          && ids == was + [r.value] && values == old(values)[r.value := fields]
          && books.entriesAdded == old(books.entriesAdded) + 1 && books.duplicates == old(books.duplicates)
          && books.sent == (if producer.Some? then sent[producer.value := r.value] else sent)
          && books.pairsAdded == old(books.pairsAdded) + if producer.Some? then 1 else 0
      ensures Valid() <==> Abs() == old(Abs()) || old(ids) == [] || old(ids)[|old(ids)| - 1] != ids[|ids| - 1]
    {
      ChosenIsRequested(ids, spec, ChooseId(ids, spec));
      if producer.Some? && producer.value in books.sent {
        books := books.(duplicates := books.duplicates + 1);
        return Some(books.sent[producer.value]);
      }
      var id := ChooseId(ids, spec);
      if |ids| > 0 && IdLess(id, ids[|ids| - 1]) {
        return None;
      }
      AddKeepsIndexIff(Abs(), id, fields);
      ids := ids + [id];
      values := values[id := fields];
      books := books.(entriesAdded := books.entriesAdded + 1);
      if producer.Some? {
        books := books.(sent := books.sent[producer.value := id], pairsAdded := books.pairsAdded + 1);
      }
      return Some(id);
    }

    /** The bisection from the left, or from the right, and whether the id is there. */
    method FindIndex(key: Id, fromLeft: bool) returns (ind: nat, found: bool)
      requires Valid()
      ensures ind <= |ids|
      ensures if fromLeft then IsCut(ids, (x: Id) => IdLess(x, key), ind) else IsCut(ids, (x: Id) => !IdLess(key, x), ind)
      ensures found <==> key in ids
      ensures found ==> if fromLeft then ind < |ids| && ids[ind] == key else 1 <= ind && ids[ind - 1] == key
    {
      if |ids| == 0 {
        return 0, false;
      }
      AscendingIsMonotone(ids, key);
      var check;
      if fromLeft {
        ind := Bisect(ids, (x: Id) => IdLess(x, key));
        check := ind;
      } else {
        ind := Bisect(ids, (x: Id) => !IdLess(key, x));
        check := ind - 1;
      }
      // An index of -1 means the last element.
      found := check < |ids| && ids[if check < 0 then |ids| - 1 else check] == key;
      FoundIffMember(ids, key, ind, fromLeft);
    }

    /** The position an id argument stands for, as deletion looks it up. */
    method FindArg(arg: IdArg) returns (ind: nat, found: bool)
      requires Valid() && !arg.Malformed?
      ensures arg.Dollar? ==> found && ind == if |ids| > 0 then |ids| - 1 else 0
      ensures arg.Key? ==> (found <==> arg.id in ids) && (found ==> ind < |ids| && ids[ind] == arg.id)
    {
      match arg
      case Dollar => ind, found := if |ids| > 0 then |ids| - 1 else 0, true;
      case Key(id) => ind, found := FindIndex(id, true);
    }

    method RemoveAt(ind: nat)
      requires Valid() && ind < |ids|
      modifies this`ids, this`values, this`maxDeleted
      ensures Valid() && Abs() == RemovedAt(old(Abs()), ind)
      ensures maxDeleted == MaxId(old(ids)[ind], old(maxDeleted))
      ensures NotesDeleted(old(ids), ids, old(maxDeleted), maxDeleted)
    {
      RemoveKeepsIndex(Abs(), ind);
      maxDeleted := MaxId(ids[ind], maxDeleted);
      values := values - {ids[ind]};
      ids := ids[..ind] + ids[ind + 1..];
    }

    method DeleteItem(arg: IdArg) returns (r: Outcome)
      requires Valid()
      modifies this`ids, this`values, this`maxDeleted
      ensures Valid() && (Abs(), r) == DeleteOne(old(Abs()), arg)
      ensures NotesDeleted(old(ids), ids, old(maxDeleted), maxDeleted)
    {
      if arg.Malformed? {
        return Failed(InvalidId);
      }
      var ind, found := FindArg(arg);
      if !found {
        return Done(0);
      }
      if ind >= |ids| {
        return Failed(IndexError);
      }
      if arg.Key? {
        PositionIsUnique(ids, arg.id, ind);
      }
      RemoveAt(ind);
      return Done(1);
    }

    /** XDEL. */
    method Delete(args: seq<IdArg>) returns (r: Outcome)
      requires Valid()
      modifies this`ids, this`values, this`maxDeleted
      ensures Valid() && (Abs(), r) == DeleteAll(old(Abs()), args)
      ensures NotesDeleted(old(ids), ids, old(maxDeleted), maxDeleted)
    {
      var res := 0;
      ghost var start, startNoted := Abs(), maxDeleted;
      for i := 0 to |args|
        invariant DeletedUpTo(start, startNoted, args, i, Abs(), maxDeleted, res)
      {
        ghost var x, noted := Abs(), maxDeleted;
        var one := DeleteItem(args[i]);
        DeletedNext(start, startNoted, args, i, x, noted, res, Abs(), maxDeleted, one);
        if one.Failed? {
          return one;
        }
        res := res + one.n;
      }
      assert args[..|args|] == args;
      return Done(res);
    }

    /** Where trimming starts to keep: by length, or by least id; None for an id that does not parse. */
    method TrimStart(maxLength: Option<int>, minId: Option<IdArg>) returns (start: Option<int>)
      requires Valid()
      ensures start == TrimFrom(ids, maxLength, minId)
    {
      if maxLength.Some? {
        return Some(|ids| - maxLength.value);
      }
      if minId.None? {
        return Some(0);
      }
      match minId.value
      case Dollar => start := Some(if |ids| > 0 then |ids| - 1 else 0);
      case Malformed => start := None;
      case Key(id) =>
        var ind, _ := FindIndex(id, true);
        AtLeastIsSuffix(ids, id, ind);
        start := Some(ind);
    }

    method CutFront(n: int)
      requires Valid()
      modifies this`ids, this`values
      ensures Valid() && ids == Drop(old(ids), n)
      ensures forall k | k in ids :: k in old(values) && values[k] == old(values)[k]
    {
      var removed := Take(ids, n);
      TakeThenDrop(ids, n);
      TrimKeepsIndex(Abs(), |removed|);
      var gone := set k | k in removed;
      values := values - gone;
      ids := Drop(ids, n);
    }

    /** Trimming; the caller gives a length or a least id. The answer is the number of entries removed. */
    method Trim(maxLength: Option<int>, minId: Option<IdArg>, limit: Option<int>) returns (r: Outcome)
      requires Valid() && (maxLength.None? || minId.None?)
      modifies this`ids, this`values
      ensures Valid()
      ensures r.Failed? <==> minId == Some(Malformed)
      ensures r.Failed? ==> Abs() == old(Abs())
      ensures r.Done? ==> r.n == TrimCount(TrimFrom(old(ids), maxLength, minId).value, limit)
      ensures r.Done? ==> ids == Drop(old(ids), r.n) && forall k | k in ids :: k in old(values) && values[k] == old(values)[k]
    {
      var start := TrimStart(maxLength, minId);
      if start.None? {
        return Failed(InvalidId);
      }
      var res := TrimCount(start.value, limit);
      CutFront(res);
      return Done(res);
    }

    /** XRANGE and XREVRANGE, before COUNT is applied. */
    method IRange(start: RangeEnd, stop: RangeEnd, reverse: bool) returns (r: seq<Record>)
      requires Valid()
      ensures
        var selected := Selected(ids, start, stop);
        r == Records(Abs(), if reverse then Reversed(selected) else selected)
    {
      var startInd := EndIndex(start, true);
      var stopInd := EndIndex(stop, false);
      SelectedIsSlice(ids, start, stop, startInd, stopInd);
      var matches := if startInd <= stopInd then ids[startInd..stopInd] else [];
      if reverse {
        matches := Reversed(matches);
      }
      r := Records(Abs(), matches);
    }

    /** The position that an endpoint of a range stands for. */
    method EndIndex(e: RangeEnd, fromLeft: bool) returns (ind: int)
      requires Valid()
      ensures 0 <= ind <= |ids|
      ensures forall i | 0 <= i < |ids| ::
                if fromLeft then InRange(ids[i], e, Highest) <==> ind <= i else InRange(ids[i], Lowest, e) <==> i < ind
    {
      match e
      case Lowest => ind := 0;
      case Highest => ind := |ids|;
      case At(id, exclusive) =>
        var found;
        ind, found := FindIndex(id, fromLeft);
        CutOfEnd(ids, id, ind, fromLeft);
        if found && exclusive {
          ind := ind + if fromLeft then 1 else -1;
        }
    }

    /** The ids after a key, at most count of them. */
    method StreamRead(startKey: Id, count: Option<int>) returns (r: seq<Id>)
      requires Valid()
      ensures r == ReadAfter(ids, startKey, count)
    {
      var startInd, found := FindIndex(startKey, true);
      CutOfEnd(ids, startKey, startInd, true);
      if found {
        startInd := startInd + 1;
      }
      ReadFrom(ids, startKey, startInd, count);
      return ReadSlice(ids, startInd, count);
    }
  }

  lemma TakeThenDrop(ids: seq<Id>, n: int)
    ensures Take(ids, n) == ids[..|Take(ids, n)|] && Drop(ids, n) == ids[|Take(ids, n)|..]
  {
  }

  function Later(ids: seq<Id>, key: Id): seq<Id> {
    Filter(ids, (k: Id) => IdLess(key, k))
  }

  /** The slice of the whole list that a read takes, given where the ids above the key start. */
  function ReadSlice(ids: seq<Id>, start: int, count: Option<int>): seq<Id>
    requires 0 <= start <= |ids|
  {
    if start >= |ids| then []
    else
      var head := Take(ids, if count.None? || start + count.value >= |ids| then |ids| else start + count.value);
      head[Min(start, |head|)..]
  }

  /** What a read after a key returns. */
  function ReadAfter(ids: seq<Id>, key: Id, count: Option<int>): seq<Id> {
    ReadSlice(ids, |ids| - |Later(ids, key)|, count)
  }

  lemma ReadFrom(ids: seq<Id>, key: Id, start: nat, count: Option<int>)
    requires IsAscending(ids) && start <= |ids|
    requires forall i | 0 <= i < |ids| :: IdLess(key, ids[i]) <==> start <= i
    ensures ReadAfter(ids, key, count) == ReadSlice(ids, start, count)
  {
    AfterIsSuffix(ids, key, start);
    ReadIsSlice(ids, key, start, count);
  }

  lemma ReadIsSlice(ids: seq<Id>, key: Id, start: nat, count: Option<int>)
    requires start <= |ids| && Later(ids, key) == ids[start..]
    ensures ReadAfter(ids, key, count) == ReadSlice(ids, start, count)
  {
  }

  /** A read returns the first of the ids above the key: all of them, or as many as the count says if it is not negative. */
  lemma ReadIsPrefixOfLater(ids: seq<Id>, key: Id, count: Option<int>)
    requires IsAscending(ids)
    ensures ReadAfter(ids, key, count) <= Later(ids, key)
    ensures count.None? ==> ReadAfter(ids, key, count) == Later(ids, key)
    ensures count.Some? && count.value >= 0 ==> |ReadAfter(ids, key, count)| == Min(count.value, |Later(ids, key)|)
  {
    var start := FirstAbove(ids, key);
    AfterIsSuffix(ids, key, start);
    ReadIsSlice(ids, key, start, count);
    SliceIsPrefix(ids, start, count);
  }

  /** With a negative count nothing is read, unless the end of the slice comes to lie before the beginning: then it counts from the end. */
  lemma ReadWithNegativeCount(ids: seq<Id>, key: Id, count: int)
    requires IsAscending(ids) && count < 0
    ensures
      var start := |ids| - |Later(ids, key)|;
      |ReadAfter(ids, key, Some(count))| == if 0 <= start + count || start == |ids| then 0 else Max(0, |ids| + count)
  {
    var start := FirstAbove(ids, key);
    AfterIsSuffix(ids, key, start);
    ReadIsSlice(ids, key, start, Some(count));
  }

  lemma SliceIsPrefix(ids: seq<Id>, start: nat, count: Option<int>)
    requires start <= |ids|
    ensures ReadSlice(ids, start, count) <= ids[start..]
    ensures count.None? ==> ReadSlice(ids, start, count) == ids[start..]
    ensures count.Some? && count.value >= 0 ==> |ReadSlice(ids, start, count)| == Min(count.value, |ids| - start)
  {
  }

  /** The number of ids that are not above the key. */
  ghost function FirstAbove(ids: seq<Id>, key: Id): (n: nat)
    requires IsAscending(ids)
    ensures n <= |ids| && forall i | 0 <= i < |ids| :: IdLess(key, ids[i]) <==> n <= i
  {
    if ids == [] || IdLess(key, ids[|ids| - 1]) == false then |ids|
    else
      var n := FirstAbove(ids[..|ids| - 1], key);
      assert forall i | 0 <= i < |ids| - 1 :: ids[..|ids| - 1][i] == ids[i];
      n
  }
}
