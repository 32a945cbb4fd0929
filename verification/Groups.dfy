/**
 Consumer groups: the pending-entry list, who owns its entries, and the
 counters that claim to say how many entries each consumer owns.
 */
module Groups {
  import opened Bytes
  import opened Arithmetic
  import opened Options
  import opened Slices
  import opened Sorted
  import opened Streams

  /** An entry of the pending list; an empty owner marks an entry that was released. */
  datatype Pending = Pending(owner: Bytes, timeRead: int, times: int)

  /** A group's state; consumers maps a name to its counter. */
  datatype Group = Group(last: Id, consumers: map<Bytes, int>, pel: map<Id, Pending>)

  const NOBODY: Bytes := []

  const MAX_DELIVERY_COUNT := 0x7fff_ffff_ffff_ffff

  /** The options of XCLAIM: the clock, the time the claimed entries are given, how long they must have been idle, and FORCE. */
  datatype ClaimOptions = ClaimOptions(now: int, time: int, minIdle: int, force: bool)

  datatype NackMode = Silent | Fail | Fatal

  /** The entries a consumer owns. */
  function Owned(pel: map<Id, Pending>, c: Bytes): set<Id> {
    set k | k in pel && pel[k].owner == c
  }

  /** Each named consumer's counter is the number of entries it owns, and every named owner is a consumer. */
  ghost predicate PendingOk(g: Group) {
    && (forall c | c in g.consumers && c != NOBODY :: g.consumers[c] == |Owned(g.pel, c)|)
    && (forall k | k in g.pel && g.pel[k].owner != NOBODY :: g.pel[k].owner in g.consumers)
  }

  // ---------- the operations on values ----------

  function Registered(consumers: map<Bytes, int>, c: Bytes): map<Bytes, int> {
    if c in consumers then consumers else consumers[c := 0]
  }

  function Bumped(consumers: map<Bytes, int>, c: Bytes, d: int): map<Bytes, int> {
    if c in consumers then consumers[c := consumers[c] + d] else consumers
  }

  /** The entries of a `>` read that is to be acknowledged. */
  function Enlisted(pel: map<Id, Pending>, ids: seq<Id>, c: Bytes, now: int): map<Id, Pending> {
    pel + map k | k in ids :: Pending(c, now, 1)
  }

  function ReadNew(g: Group, ids: seq<Id>, c: Bytes, noack: bool, now: int): Group {
    Group(if ids == [] then g.last else MaxId(g.last, ids[|ids| - 1]),
          Bumped(Registered(g.consumers, c), c, |ids|),
          if noack then g.pel else Enlisted(g.pel, ids, c, now))
  }

  function Redelivered(pel: map<Id, Pending>, ids: seq<Id>): map<Id, Pending> {
    map k | k in pel :: if k in ids then pel[k].(times := pel[k].times + 1) else pel[k]
  }

  /** A read of the consumer's history counts one more delivery of each entry. */
  function ReadAgain(g: Group, ids: seq<Id>, c: Bytes): Group {
    g.(consumers := Registered(g.consumers, c), pel := Redelivered(g.pel, ids))
  }

  /** Acknowledging one id; None is the KeyError for an owner that is no consumer. */
  function AckOne(g: Group, k: Id): Option<Group> {
    if k !in g.pel then Some(g)
    else if g.pel[k].owner !in g.consumers then None
    else Some(g.(consumers := Bumped(g.consumers, g.pel[k].owner, -1), pel := g.pel - {k}))
  }

  /** The consumers that recomputing the times registers: every owner of an entry. */
  function WithOwners(g: Group): Group {
    g.(consumers := (map c | c in Owners(g.pel) :: 0) + g.consumers)
  }

  function Owners(pel: map<Id, Pending>): set<Bytes> {
    set k | k in pel :: pel[k].owner
  }

  function NackTimes(times: int, mode: NackMode, retry: Option<int>): int {
    if retry.Some? then retry.value
    else
      match mode
      case Silent => if times - 1 > 0 then times - 1 else 0
      case Fail => times
      case Fatal => MAX_DELIVERY_COUNT
  }

  function NackOne(g: Group, k: Id, stored: bool, mode: NackMode, retry: Option<int>, force: bool): Group {
    if k in g.pel then
      var e := g.pel[k];
      g.(consumers := if e.owner != NOBODY then Bumped(g.consumers, e.owner, -1) else g.consumers,
         pel := g.pel[k := Pending(NOBODY, 0, NackTimes(e.times, mode, retry))])
    else if force && stored then
      var times := if retry.Some? then retry.value else if mode == Fatal then MAX_DELIVERY_COUNT else 0;
      g.(pel := g.pel[k := Pending(NOBODY, 0, times)])
    else g
  }

  /** Claiming one entry for a consumer that is registered. */
  function ClaimOne(g: Group, k: Id, c: Bytes, now: int): Group
    requires k in g.pel
  {
    var e := g.pel[k];
    g.(consumers := if e.owner != c then Bumped(Bumped(g.consumers, e.owner, -1), c, 1) else g.consumers,
       pel := g.pel[k := Pending(c, now, e.times + 1)])
  }

  predicate IsIdle(p: Pending, now: int, minIdle: int) {
    now - p.timeRead >= minIdle
  }

  /** XCLAIM of one id: no counter is touched, and a claimed entry that is no longer stored is dropped. */
  function ClaimedEntry(pel: map<Id, Pending>, k: Id, stored: bool, c: Bytes, options: ClaimOptions): map<Id, Pending> {
    if k !in pel then if options.force && stored then pel[k := Pending(c, options.time, 1)] else pel
    else if !IsIdle(pel[k], options.now, options.minIdle) then pel
    else if stored then pel[k := Pending(c, options.time, pel[k].times + 1)]
    else pel - {k}
  }

  function ClaimedEntries(pel: map<Id, Pending>, ids: seq<Id>, stored: set<Id>, c: Bytes, options: ClaimOptions): map<Id, Pending> {
    if ids == [] then pel
    else
      var k := ids[|ids| - 1];
      ClaimedEntry(ClaimedEntries(pel, ids[..|ids| - 1], stored, c, options), k, k in stored, c, options)
  }

  /** XCLAIM and XAUTOCLAIM of several ids; recomputing the times at the end may register consumers. */
  function Claimed(g: Group, ids: seq<Id>, stored: set<Id>, c: Bytes, options: ClaimOptions): Group {
    WithOwners(g.(pel := ClaimedEntries(g.pel, ids, stored, c, options)))
  }

  /** Deleting a consumer leaves its entries in the list. */
  function WithoutConsumer(g: Group, c: Bytes): Group {
    g.(consumers := g.consumers - {c})
  }

  /** Dropping the reference of a deleted entry. */
  function Dereferenced(g: Group, k: Id): Group {
    if k !in g.pel then g
    else
      var c := g.pel[k].owner;
      g.(consumers := if c != NOBODY then Bumped(g.consumers, c, -1) else g.consumers, pel := g.pel - {k})
  }

  // ---------- what they do to each entry and each counter ----------

  /** The entry listed under the id, or none. */
  function At(pel: map<Id, Pending>, k: Id): Option<Pending> {
    if k in pel then Some(pel[k]) else None
  }

  /** The consumer's counter, or none if it is no consumer. */
  function CounterOf(g: Group, c: Bytes): Option<int> {
    if c in g.consumers then Some(g.consumers[c]) else None
  }

  /** The counter with a number added, if there is one. */
  function Plus(n: Option<int>, d: int): Option<int> {
    if n.Some? then Some(n.value + d) else None
  }

  /**
   A `>` read gives the reader each entry, read now and for the first time,
   unless NOACK was given; its counter, from 0 if it is new, grows by the number
   of ids, and the last id given is the last of them if that is higher.
   */
  lemma ReadNewResult(g: Group, ids: seq<Id>, c: Bytes, noack: bool, now: int, k: Id, d: Bytes)
    ensures
      var h := ReadNew(g, ids, c, noack, now);
      && At(h.pel, k) == (if k in ids && !noack then Some(Pending(c, now, 1)) else At(g.pel, k))
      && CounterOf(h, d) ==
           (if d != c then CounterOf(g, d) else Some(|ids| + if c in g.consumers then g.consumers[c] else 0))
      && h.last == (if ids != [] && IdLess(g.last, ids[|ids| - 1]) then ids[|ids| - 1] else g.last)
  {
  }

  /** A read of the history counts one more delivery of each entry read, and the reader becomes a consumer. */
  lemma ReadAgainResult(g: Group, ids: seq<Id>, c: Bytes, k: Id, d: Bytes)
    ensures
      var h, was := ReadAgain(g, ids, c), At(g.pel, k);
      && h.last == g.last
      && At(h.pel, k) ==
           (if was.Some? && k in ids then Some(Pending(was.value.owner, was.value.timeRead, was.value.times + 1)) else was)
      && CounterOf(h, d) == (if d == c && c !in g.consumers then Some(0) else CounterOf(g, d))
  {
  }

  /** An acknowledgement takes the entry off the list and one off its owner's counter. */
  lemma AckOneResult(g: Group, k: Id, other: Id, d: Bytes)
    ensures
      var was, h := At(g.pel, k), AckOne(g, k);
      && (h.None? <==> was.Some? && CounterOf(g, was.value.owner).None?)
      && (h.Some? ==>
            && h.value.last == g.last && At(h.value.pel, other) == (if other == k then None else At(g.pel, other))
            && CounterOf(h.value, d) == Plus(CounterOf(g, d), if was.Some? && was.value.owner == d then -1 else 0))
  {
  }

  /**
   A released entry belongs to nobody and was never read; its owner's counter
   goes down by one. It counts one delivery less (but not less than none), as
   many as before, or as many as there can be, unless RETRYCOUNT says how many.
   With FORCE an entry that is stored and not listed is listed so, with none.
   */
  lemma NackOneResult(
      g: Group, k: Id, stored: bool, mode: NackMode, retry: Option<int>, force: bool, other: Id, d: Bytes)
    ensures
      var was, h := At(g.pel, k), NackOne(g, k, stored, mode, retry, force);
      var times := if was.Some? then was.value.times else 0;
      && h.last == g.last && (other != k ==> At(h.pel, other) == At(g.pel, other))
      && (was.None? && !(force && stored) ==> h == g)
      && (was.Some? || (force && stored) ==>
            && At(h.pel, k).Some? && At(h.pel, k).value.owner == NOBODY && At(h.pel, k).value.timeRead == 0
            && At(h.pel, k).value.times ==
                 match retry
                 case Some(n) => n
                 case None =>
                   match mode
                   case Silent => Max(times - 1, 0)
                   case Fail => times
                   case Fatal => MAX_DELIVERY_COUNT)
      && CounterOf(h, d) == Plus(CounterOf(g, d), if was.Some? && was.value.owner == d != NOBODY then -1 else 0)
  {
  }

  /**
   A claim during a read gives the entry to the claimer, read now and delivered
   once more, and moves one from its owner's counter to the claimer's.
   */
  lemma ClaimOneResult(g: Group, k: Id, c: Bytes, now: int, other: Id, d: Bytes)
    requires k in g.pel && c in g.consumers
    ensures
      var was, h := g.pel[k], ClaimOne(g, k, c, now);
      && h.last == g.last
      && At(h.pel, other) == (if other == k then Some(Pending(c, now, was.times + 1)) else At(g.pel, other))
      && CounterOf(h, d) == Plus(CounterOf(g, d), if was.owner == c then 0 else if d == c then 1 else if d == was.owner then -1 else 0)
  {
  }

  /**
   XCLAIM of one id leaves an entry alone that has not been idle for long
   enough; an idle one comes to the claimer, read at the time given and
   delivered once more, or leaves the list if it is no longer stored; FORCE
   lists a stored one that is not listed as delivered once.
   */
  lemma ClaimedEntryResult(pel: map<Id, Pending>, k: Id, stored: bool, c: Bytes, options: ClaimOptions, other: Id)
    ensures
      var was, p := At(pel, k), ClaimedEntry(pel, k, stored, c, options);
      && (other != k ==> At(p, other) == At(pel, other))
      && At(p, k) ==
           if was.None? then if options.force && stored then Some(Pending(c, options.time, 1)) else None
           else if options.now - was.value.timeRead < options.minIdle then was
           else if stored then Some(Pending(c, options.time, was.value.times + 1))
           else None
  {
  }

  /** Dropping the reference of a deleted entry takes it off the list and one off its owner's counter, if it has both. */
  lemma DereferencedResult(g: Group, k: Id, other: Id, d: Bytes)
    ensures
      var was, h := At(g.pel, k), Dereferenced(g, k);
      && h.last == g.last && At(h.pel, other) == (if other == k then None else At(g.pel, other))
      && CounterOf(h, d) == Plus(CounterOf(g, d), if was.Some? && was.value.owner == d != NOBODY then -1 else 0)
  {
  }

  /** Recomputing the times makes every owner a consumer, with a counter of 0 if it was none; deleting one leaves the list alone. */
  lemma ConsumersResult(g: Group, c: Bytes, d: Bytes)
    ensures
      var h := WithOwners(g);
      && h.last == g.last && h.pel == g.pel
      && CounterOf(h, d) ==
           (if d !in g.consumers && exists k :: k in g.pel && g.pel[k].owner == d then Some(0) else CounterOf(g, d))
    ensures
      var h := WithoutConsumer(g, c);
      h.last == g.last && h.pel == g.pel && CounterOf(h, d) == (if d == c then None else CounterOf(g, d))
  {
  }

  // ---------- how ownership changes ----------

  lemma OwnedAfterSet(pel: map<Id, Pending>, k: Id, p: Pending, c: Bytes)
    ensures Owned(pel[k := p], c) == if p.owner == c then Owned(pel, c) + {k} else Owned(pel, c) - {k}
  {
  }

  lemma OwnedAfterRemove(pel: map<Id, Pending>, k: Id, c: Bytes)
    ensures Owned(pel - {k}, c) == Owned(pel, c) - {k}
  {
  }

  lemma OwnedAfterEnlist(pel: map<Id, Pending>, ids: seq<Id>, c: Bytes, now: int, d: Bytes)
    ensures
      var added := set k | k in ids;
      Owned(Enlisted(pel, ids, c, now), d) == if c == d then Owned(pel, d) + added else Owned(pel, d) - added
  {
  }

  lemma RegisteredKeepsPending(g: Group, c: Bytes)
    requires PendingOk(g)
    ensures PendingOk(g.(consumers := Registered(g.consumers, c)))
  {
  }

  // ---------- which operations keep the counters right ----------

  lemma ReadAgainKeepsPending(g: Group, ids: seq<Id>, c: Bytes)
    requires PendingOk(g)
    ensures PendingOk(ReadAgain(g, ids, c))
  {
    RegisteredKeepsPending(g, c);
    var h := ReadAgain(g, ids, c);
    forall d ensures Owned(h.pel, d) == Owned(g.pel, d) {
    }
  }

  lemma AckKeepsPending(g: Group, k: Id)
    requires PendingOk(g) && AckOne(g, k).Some?
    ensures PendingOk(AckOne(g, k).value)
  {
    forall c ensures k in g.pel ==> Owned(g.pel - {k}, c) == Owned(g.pel, c) - {k} {
      OwnedAfterRemove(g.pel, k, c);
    }
  }

  lemma WithOwnersKeepsPending(g: Group)
    requires PendingOk(g)
    ensures PendingOk(WithOwners(g))
  {
  }

  lemma NackKeepsPending(g: Group, k: Id, stored: bool, mode: NackMode, retry: Option<int>, force: bool)
    requires PendingOk(g)
    ensures PendingOk(NackOne(g, k, stored, mode, retry, force))
  {
    var h := NackOne(g, k, stored, mode, retry, force);
    if k in g.pel {
      forall c ensures |Owned(h.pel, c)| ==
        |Owned(g.pel, c)| + (if c == NOBODY then 1 else 0) - (if g.pel[k].owner == c then 1 else 0)
      {
        OwnedSizeAfterSet(g.pel, k, h.pel[k], c);
      }
    } else if force && stored {
      forall c | c != NOBODY ensures Owned(h.pel, c) == Owned(g.pel, c) {
        OwnedAfterSet(g.pel, k, h.pel[k], c);
      }
    }
  }

  /** How the number of owned entries changes with one entry. */
  lemma OwnedSizeAfterSet(pel: map<Id, Pending>, k: Id, p: Pending, c: Bytes)
    requires k in pel
    ensures |Owned(pel[k := p], c)| ==
            |Owned(pel, c)| + (if p.owner == c then 1 else 0) - (if pel[k].owner == c then 1 else 0)
  {
    OwnedAfterSet(pel, k, p, c);
    if pel[k].owner == c {
      assert k in Owned(pel, c);
    } else {
      assert k !in Owned(pel, c);
    }
  }

  lemma ClaimKeepsPending(g: Group, k: Id, c: Bytes, now: int)
    requires PendingOk(g) && k in g.pel && c in g.consumers
    ensures PendingOk(ClaimOne(g, k, c, now)) && c in ClaimOne(g, k, c, now).consumers
  {
    var h := ClaimOne(g, k, c, now);
    forall d | d in h.consumers && d != NOBODY ensures h.consumers[d] == |Owned(h.pel, d)| {
      OwnedSizeAfterSet(g.pel, k, h.pel[k], d);
    }
  }

  lemma DereferencedKeepsPending(g: Group, k: Id)
    requires PendingOk(g)
    ensures PendingOk(Dereferenced(g, k))
  {
    forall c ensures Owned(g.pel - {k}, c) == Owned(g.pel, c) - {k} {
      OwnedAfterRemove(g.pel, k, c);
    }
  }

  predicate Distinct(ids: seq<Id>) {
    forall i, j | 0 <= i < j < |ids| :: ids[i] != ids[j]
  }

  lemma {:induction false} DistinctSize(ids: seq<Id>)
    ensures |set k | k in ids| <= |ids|
    ensures |set k | k in ids| == |ids| <==> Distinct(ids)
  {
    if ids != [] {
      var init, last := ids[..|ids| - 1], ids[|ids| - 1];
      DistinctSize(init);
      assert (set k | k in ids) == (set k | k in init) + {last};
      assert Distinct(ids) <==> Distinct(init) && last !in init;
    }
  }

  /** No entry read is already owned by somebody with a name. */
  predicate NoneOwned(g: Group, ids: seq<Id>) {
    forall k | k in ids && k in g.pel :: g.pel[k].owner == NOBODY
  }

  lemma EnlistedSize(pel: map<Id, Pending>, ids: seq<Id>, c: Bytes, now: int, d: Bytes)
    requires d != NOBODY && forall k | k in ids && k in pel :: pel[k].owner == NOBODY
    ensures |Owned(Enlisted(pel, ids, c, now), d)| == |Owned(pel, d)| + if c == d then |set k | k in ids| else 0
  {
    OwnedAfterEnlist(pel, ids, c, now, d);
    DisjointSizes(Owned(pel, d), set k | k in ids);
  }

  lemma DisjointSizes(a: set<Id>, b: set<Id>)
    requires a !! b
    ensures |a + b| == |a| + |b| && a - b == a
  {
  }

  // ---------- where the counters go wrong ----------

  /**
   A `>` read keeps the counters right if and only if nobody with a name owns
   any of the entries read, and a reader with a name reads none of them twice.
   */
  lemma ReadNewKeepsPendingIff(g: Group, ids: seq<Id>, c: Bytes, now: int)
    requires PendingOk(g)
    ensures PendingOk(ReadNew(g, ids, c, false, now)) <==> NoneOwned(g, ids) && (c == NOBODY || Distinct(ids))
  {
    if NoneOwned(g, ids) {
      ReadOfFree(g, ids, c, now);
    } else {
      ReadOfOwned(g, ids, c, now);
    }
  }

  lemma ReadOfFree(g: Group, ids: seq<Id>, c: Bytes, now: int)
    requires PendingOk(g) && NoneOwned(g, ids)
    ensures PendingOk(ReadNew(g, ids, c, false, now)) <==> c == NOBODY || Distinct(ids)
  {
    var h := ReadNew(g, ids, c, false, now);
    forall d | d in h.consumers && d != NOBODY ensures h.consumers[d] == |Owned(h.pel, d)| <==> d != c || Distinct(ids) {
      CounterAfterRead(g, ids, c, now, d);
    }
    assert c in h.consumers;
    assert forall k | k in h.pel && h.pel[k].owner != NOBODY :: h.pel[k].owner in h.consumers;
  }

  lemma CounterAfterRead(g: Group, ids: seq<Id>, c: Bytes, now: int, d: Bytes)
    requires PendingOk(g) && NoneOwned(g, ids) && d != NOBODY && d in ReadNew(g, ids, c, false, now).consumers
    ensures
      var h := ReadNew(g, ids, c, false, now);
      h.consumers[d] == |Owned(h.pel, d)| <==> d != c || Distinct(ids)
  {
    RegisteredKeepsPending(g, c);
    DistinctSize(ids);
    EnlistedSize(g.pel, ids, c, now, d);
  }

  lemma ReadOfOwned(g: Group, ids: seq<Id>, c: Bytes, now: int)
    requires PendingOk(g) && !NoneOwned(g, ids)
    ensures !PendingOk(ReadNew(g, ids, c, false, now))
  {
    var k :| k in ids && k in g.pel && g.pel[k].owner != NOBODY;
    var h, d, added := ReadNew(g, ids, c, false, now), g.pel[k].owner, set k | k in ids;
    OwnedAfterEnlist(g.pel, ids, c, now, d);
    DistinctSize(ids);
    assert k in Owned(g.pel, d) && k in added;
    if d == c {
      OverlapIsSmaller(Owned(g.pel, d), added, k);
    } else {
      ProperSubsetIsSmaller(Owned(g.pel, d) - added, Owned(g.pel, d), k);
    }
    assert h.consumers[d] != |Owned(h.pel, d)|;
  }

  lemma OverlapIsSmaller(a: set<Id>, b: set<Id>, k: Id)
    requires k in a && k in b
    ensures |a + b| < |a| + |b|
  {
    assert a + b == a + (b - {k});
    assert |b - {k}| == |b| - 1;
    assert |a + (b - {k})| <= |a| + |b - {k}|;
  }

  lemma ProperSubsetIsSmaller(a: set<Id>, b: set<Id>, k: Id)
    requires a <= b && k in b && k !in a
    ensures |a| < |b|
  {
    assert a <= b - {k};
    SubsetSize(a, b - {k});
  }

  lemma {:induction false} SubsetSize(a: set<Id>, b: set<Id>)
    requires a <= b
    ensures |a| <= |b|
    decreases |a|
  {
    if a != {} {
      var x :| x in a;
      SubsetSize(a - {x}, b - {x});
    }
  }

  /** A NOACK read keeps them right if and only if it reads nothing or its reader has no name. */
  lemma NoAckReadKeepsPendingIff(g: Group, ids: seq<Id>, c: Bytes, now: int)
    requires PendingOk(g)
    ensures PendingOk(ReadNew(g, ids, c, true, now)) <==> ids == [] || c == NOBODY
  {
    RegisteredKeepsPending(g, c);
    var h := ReadNew(g, ids, c, true, now);
    assert c in h.consumers;
    assert c != NOBODY ==> h.consumers[c] == |Owned(g.pel, c)| + |ids|;
  }

  /** Who owns an entry; nobody if there is none. */
  function OwnerOf(pel: map<Id, Pending>, k: Id): Bytes {
    if k in pel then pel[k].owner else NOBODY
  }

  /** Who owns it after XCLAIM, as the state before it says. */
  function NextOwner(pel: map<Id, Pending>, k: Id, stored: bool, c: Bytes, options: ClaimOptions): Bytes {
    if k !in pel then if options.force && stored then c else NOBODY
    else if !IsIdle(pel[k], options.now, options.minIdle) then pel[k].owner
    else if stored then c else NOBODY
  }

  /** What is known of a listed id after some claims; claiming it again does not change its owner. */
  lemma {:induction false} ClaimedEntriesAt(pel: map<Id, Pending>, ids: seq<Id>, stored: set<Id>, c: Bytes, options: ClaimOptions, k: Id)
    ensures
      var p := ClaimedEntries(pel, ids, stored, c, options);
      if k !in ids || (k in pel && !IsIdle(pel[k], options.now, options.minIdle)) then
        (k in p <==> k in pel) && (k in pel ==> p[k] == pel[k])
      else if k in stored && (k in pel || options.force) then
        && k in p && p[k].owner == c && p[k].timeRead == options.time
        && (Distinct(ids) ==> p[k].times == if k in pel then pel[k].times + 1 else 1)
      else k !in p
  {
    if ids != [] {
      ClaimedEntriesAt(pel, ids[..|ids| - 1], stored, c, options, k);
      assert k in ids <==> k in ids[..|ids| - 1] || k == ids[|ids| - 1];
    }
  }

  /** The listed entries that come to e, and those that leave e. */
  function Gains(pel: map<Id, Pending>, ids: seq<Id>, stored: set<Id>, c: Bytes, options: ClaimOptions, e: Bytes): set<Id> {
    set k | k in ids && OwnerOf(pel, k) != e && NextOwner(pel, k, k in stored, c, options) == e
  }

  function Losses(pel: map<Id, Pending>, ids: seq<Id>, stored: set<Id>, c: Bytes, options: ClaimOptions, e: Bytes): set<Id> {
    set k | k in ids && OwnerOf(pel, k) == e && NextOwner(pel, k, k in stored, c, options) != e
  }

  lemma OwnedAfterClaims(pel: map<Id, Pending>, ids: seq<Id>, stored: set<Id>, c: Bytes, options: ClaimOptions, e: Bytes)
    requires e != NOBODY
    ensures |Owned(ClaimedEntries(pel, ids, stored, c, options), e)| ==
            |Owned(pel, e)| + |Gains(pel, ids, stored, c, options, e)| - |Losses(pel, ids, stored, c, options, e)|
  {
    var before, after := Owned(pel, e), Owned(ClaimedEntries(pel, ids, stored, c, options), e);
    var gains, losses := Gains(pel, ids, stored, c, options, e), Losses(pel, ids, stored, c, options, e);
    forall k ensures k in after <==> (k in before && k !in losses) || k in gains {
      ClaimedEntriesAt(pel, ids, stored, c, options, k);
    }
    assert after == (before - losses) + gains;
    ExchangeSize(before, losses, gains);
  }

  lemma ExchangeSize(a: set<Id>, losses: set<Id>, gains: set<Id>)
    requires losses <= a && a !! gains
    ensures |(a - losses) + gains| == |a| + |gains| - |losses|
  {
    assert a == (a - losses) + losses;
  }

  ghost predicate ClaimsBalance(pel: map<Id, Pending>, ids: seq<Id>, stored: set<Id>, c: Bytes, options: ClaimOptions) {
    && (forall e | e != NOBODY && e != c :: Losses(pel, ids, stored, c, options, e) == {})
    && (c != NOBODY ==> |Gains(pel, ids, stored, c, options, c)| == |Losses(pel, ids, stored, c, options, c)|)
  }

  /**
   XCLAIM and XAUTOCLAIM keep the counters right if and only if no listed entry
   is taken from another named consumer, and a named claimer gains as many as
   it loses.
   */
  lemma ClaimsKeepPendingIff(g: Group, ids: seq<Id>, stored: set<Id>, c: Bytes, options: ClaimOptions)
    requires PendingOk(g)
    ensures PendingOk(Claimed(g, ids, stored, c, options)) <==> ClaimsBalance(g.pel, ids, stored, c, options)
  {
    var h, pel := Claimed(g, ids, stored, c, options), ClaimedEntries(g.pel, ids, stored, c, options);
    forall e | e != NOBODY
      ensures |Owned(pel, e)| == |Owned(g.pel, e)| <==>
              |Gains(g.pel, ids, stored, c, options, e)| == |Losses(g.pel, ids, stored, c, options, e)|
      ensures e != c ==> Gains(g.pel, ids, stored, c, options, e) == {}
    {
      OwnedAfterClaims(g.pel, ids, stored, c, options, e);
    }
    SameCountsKeepPending(g, pel);
  }

  /** With the times recomputed, the counters stay right exactly when everybody owns as many entries as before. */
  lemma SameCountsKeepPending(g: Group, pel: map<Id, Pending>)
    requires PendingOk(g)
    ensures PendingOk(WithOwners(g.(pel := pel))) <==> forall e | e != NOBODY :: |Owned(pel, e)| == |Owned(g.pel, e)|
  {
    var h := WithOwners(g.(pel := pel));
    forall e | e != NOBODY && e !in g.consumers ensures Owned(g.pel, e) == {} {
    }
    forall e | e != NOBODY && e !in h.consumers ensures Owned(pel, e) == {} {
      forall k | k in pel ensures pel[k].owner != e {
        assert pel[k].owner in Owners(pel);
      }
    }
  }

  /**
   For one entry: when it is listed and idle, the counters stay right if and
   only if it was the claimer's own and is still stored, or was nobody's and is
   not; FORCE on an entry that is not listed breaks them for a named claimer if
   the entry is stored.
   */
  lemma ClaimKeepsPendingIff(g: Group, k: Id, stored: set<Id>, c: Bytes, options: ClaimOptions)
    requires PendingOk(g)
    ensures PendingOk(Claimed(g, [k], stored, c, options)) <==>
      if k in g.pel then
        !IsIdle(g.pel[k], options.now, options.minIdle) || g.pel[k].owner == if k in stored then c else NOBODY
      else !(options.force && k in stored) || c == NOBODY
  {
    ClaimsKeepPendingIff(g, [k], stored, c, options);
    var before, after := OwnerOf(g.pel, k), NextOwner(g.pel, k, k in stored, c, options);
    forall e {
      SingleMove(g.pel, k, stored, c, options, e);
    }
    if before != after && before != NOBODY && before != c {
      assert k in Losses(g.pel, [k], stored, c, options, before);
    }
  }

  lemma SingleMove(pel: map<Id, Pending>, k: Id, stored: set<Id>, c: Bytes, options: ClaimOptions, e: Bytes)
    ensures
      var before, after := OwnerOf(pel, k), NextOwner(pel, k, k in stored, c, options);
      && Gains(pel, [k], stored, c, options, e) == (if before != e && after == e then {k} else {})
      && Losses(pel, [k], stored, c, options, e) == (if before == e && after != e then {k} else {})
  {
  }

  /** Deleting a consumer keeps them right if and only if it owns nothing or has no name. */
  lemma DelConsumerKeepsPendingIff(g: Group, c: Bytes)
    requires PendingOk(g)
    ensures PendingOk(WithoutConsumer(g, c)) <==> c == NOBODY || Owned(g.pel, c) == {}
  {
    var h := WithoutConsumer(g, c);
    if k :| k in Owned(g.pel, c) && c != NOBODY {
      assert k in h.pel && h.pel[k].owner !in h.consumers;
    } else {
      forall k | k in g.pel && c != NOBODY ensures g.pel[k].owner != c {
        assert k !in Owned(g.pel, c);
      }
    }
  }

  // ---------- sorting ids ----------

  ghost predicate IsOrder(less: (Id, Id) -> bool) {
    && (forall a, b :: less(a, b) || a == b || less(b, a))
    && (forall a :: !less(a, a))
    && (forall a, b, c :: less(a, b) && less(b, c) ==> less(a, c))
  }

  ghost predicate IsSortedBy(s: seq<Id>, less: (Id, Id) -> bool) {
    forall i, j | 0 <= i < j < |s| :: less(s[i], s[j])
  }

  lemma InsertKeepsSorted(s: seq<Id>, k: Id, at: int, less: (Id, Id) -> bool)
    requires IsOrder(less) && IsSortedBy(s, less) && k !in s
    requires IsCut(s, (x: Id) => less(x, k), at)
    ensures IsSortedBy(s[..at] + [k] + s[at..], less)
    ensures forall x :: x in s[..at] + [k] + s[at..] <==> x in s || x == k
  {
  }

  /** sorted(keys, key=...), the key given as the order it induces. */
  method SortIds(keys: set<Id>, less: (Id, Id) -> bool) returns (s: seq<Id>)
    requires IsOrder(less)
    ensures IsSortedBy(s, less) && forall k :: k in s <==> k in keys
  {
    s := [];
    var rest := keys;
    while rest != {}
      invariant rest <= keys && IsSortedBy(s, less)
      invariant forall k :: k in s <==> k in keys - rest
      decreases rest
    {
      var k :| k in rest;
      assert forall i, j | 0 <= i < j < |s| :: less(s[j], k) ==> less(s[i], k);
      var at := Bisect(s, (x: Id) => less(x, k));
      InsertKeepsSorted(s, k, at, less);
      s := s[..at] + [k] + s[at..];
      rest := rest - {k};
    }
  }

  lemma IdOrder()
    ensures IsOrder(IdLess)
  {
  }

  /** Longest idle first, then by id. */
  function ClaimOrder(pel: map<Id, Pending>): (Id, Id) -> bool {
    (a: Id, b: Id) =>
      var ta, tb := if a in pel then pel[a].timeRead else 0, if b in pel then pel[b].timeRead else 0;
      ta < tb || (ta == tb && IdLess(a, b))
  }

  lemma ClaimOrderIsOrder(pel: map<Id, Pending>)
    ensures IsOrder(ClaimOrder(pel))
  {
  }

  // ---------- lists of ids ----------

  /** XACK of several ids, up to the first that raises KeyError; the answer counts the entries removed. */
  function AckAll(g: Group, ids: seq<Id>): (Group, Option<int>) {
    if ids == [] then (g, Some(0))
    else
      var (h, n) := AckAll(g, ids[..|ids| - 1]);
      var k := ids[|ids| - 1];
      if n.None? then (h, n)
      else
        match AckOne(h, k)
        case None => (h, None)
        case Some(t) => (t, Some(n.value + if k in h.pel then 1 else 0))
  }

  lemma {:induction false} AckAllStops(g: Group, ids: seq<Id>, i: nat)
    requires i <= |ids| && AckAll(g, ids[..i]).1.None?
    ensures AckAll(g, ids) == AckAll(g, ids[..i])
  {
    if i == |ids| {
      assert ids[..i] == ids;
    } else {
      assert ids[..|ids| - 1][..i] == ids[..i];
      AckAllStops(g, ids[..|ids| - 1], i);
    }
  }

  /** Acknowledgements take entries away and leave the others, and the set of consumers, as they were. */
  lemma {:induction false} AckAllShrinks(g: Group, ids: seq<Id>)
    ensures
      var h := AckAll(g, ids).0;
      && h.last == g.last && h.consumers.Keys == g.consumers.Keys
      && forall k | k in h.pel :: k in g.pel && h.pel[k] == g.pel[k]
  {
    if ids != [] {
      AckAllShrinks(g, ids[..|ids| - 1]);
    }
  }

  /** The acknowledgement of the entry would raise: it is listed and its owner is no consumer. */
  predicate Raises(g: Group, k: Id) {
    k in g.pel && g.pel[k].owner !in g.consumers
  }

  /** XACK removes the entries of its ids up to the first that raises, and no others. */
  lemma {:induction false} AckAllRemoves(g: Group, ids: seq<Id>) returns (done: nat)
    ensures done <= |ids| && (done < |ids| ==> Raises(g, ids[done])) && forall i | 0 <= i < done :: !Raises(g, ids[i])
    ensures
      var (h, n) := AckAll(g, ids);
      && (n.Some? <==> done == |ids|)
      && forall k :: k in h.pel <==> k in g.pel && k !in ids[..done]
  {
    if ids == [] {
      done := 0;
    } else {
      var init, k := ids[..|ids| - 1], ids[|ids| - 1];
      done := AckAllRemoves(g, init);
      AckAllShrinks(g, init);
      assert init[..done] == ids[..done];
      var (h, n) := AckAll(g, init);
      if n.Some? && AckOne(h, k).Some? {
        done := done + 1;
        assert ids[..done] == init + [k];
      }
    }
  }

  /** It answers how many it has removed, and each counter goes down by as many as its consumer owned among them. */
  lemma {:induction false} AckAllCounts(g: Group, ids: seq<Id>)
    ensures
      var (h, n) := AckAll(g, ids);
      && (n.Some? ==> n.value == |g.pel| - |h.pel|)
      && (forall c | c in g.consumers ::
            c in h.consumers && h.consumers[c] == g.consumers[c] - (|Owned(g.pel, c)| - |Owned(h.pel, c)|))
  {
    if ids != [] {
      var init, k := ids[..|ids| - 1], ids[|ids| - 1];
      AckAllCounts(g, init);
      var (h, n) := AckAll(g, init);
      if n.Some? && AckOne(h, k).Some? {
        AckCounts(h, k);
      }
    }
  }

  lemma AckCounts(h: Group, k: Id)
    requires AckOne(h, k).Some?
    ensures
      var t := AckOne(h, k).value;
      && |t.pel| == |h.pel| - (if k in h.pel then 1 else 0)
      && (forall id :: id in t.pel <==> id in h.pel && id != k)
      && forall c | c in h.consumers ::
           c in t.consumers && t.consumers[c] == h.consumers[c] - (|Owned(h.pel, c)| - |Owned(t.pel, c)|)
  {
    var t := AckOne(h, k).value;
    if k in h.pel {
      assert t.pel.Keys == h.pel.Keys - {k};
      forall c ensures |Owned(t.pel, c)| == |Owned(h.pel, c)| - if h.pel[k].owner == c then 1 else 0 {
        OwnedAfterRemove(h.pel, k, c);
        assert k in Owned(h.pel, c) <==> h.pel[k].owner == c;
      }
    }
  }

  lemma {:induction false} AckAllKeepsPending(g: Group, ids: seq<Id>)
    requires PendingOk(g)
    ensures PendingOk(AckAll(g, ids).0)
  {
    if ids != [] {
      AckAllKeepsPending(g, ids[..|ids| - 1]);
      var h, k := AckAll(g, ids[..|ids| - 1]).0, ids[|ids| - 1];
      if AckOne(h, k).Some? {
        AckKeepsPending(h, k);
      }
    }
  }

  /** Claiming the candidates in order; those deleted from the stream are skipped. */
  function ClaimAll(g: Group, ids: seq<Id>, stored: set<Id>, c: Bytes, now: int): Group {
    if ids == [] then g
    else
      var h, k := ClaimAll(g, ids[..|ids| - 1], stored, c, now), ids[|ids| - 1];
      if k in stored && k in h.pel then ClaimOne(h, k, c, now) else h
  }

  lemma {:induction false} ClaimAllKeepsPending(g: Group, ids: seq<Id>, stored: set<Id>, c: Bytes, now: int)
    requires PendingOk(g) && c in g.consumers
    ensures PendingOk(ClaimAll(g, ids, stored, c, now)) && c in ClaimAll(g, ids, stored, c, now).consumers
  {
    if ids != [] {
      ClaimAllKeepsPending(g, ids[..|ids| - 1], stored, c, now);
      var h, k := ClaimAll(g, ids[..|ids| - 1], stored, c, now), ids[|ids| - 1];
      if k in h.pel {
        ClaimKeepsPending(h, k, c, now);
      }
    }
  }

  /** Of the candidates of a read, those still stored come to the claimer, each delivered once more; no other entry changes. */
  lemma {:induction false} ClaimAllResult(g: Group, ids: seq<Id>, stored: set<Id>, c: Bytes, now: int, k: Id)
    requires Distinct(ids)
    ensures
      var was, h := At(g.pel, k), ClaimAll(g, ids, stored, c, now);
      At(h.pel, k) == if was.Some? && k in ids && k in stored then Some(Pending(c, now, was.value.times + 1)) else was
  {
    if ids != [] {
      var init, last := ids[..|ids| - 1], ids[|ids| - 1];
      ClaimAllResult(g, init, stored, c, now, k);
      assert k in ids <==> k in init || k == last;
    }
  }

  /** A consumer's pending entries above an id. */
  function HistoryOf(pel: map<Id, Pending>, c: Bytes, threshold: Id): set<Id> {
    set k | k in pel && pel[k].owner == c && IdLess(threshold, k)
  }

  /** A history read lists exactly the consumer's own entries above the threshold, in ascending order. */
  lemma HistoryIs(all: seq<Id>, pel: map<Id, Pending>, c: Bytes, threshold: Id)
    requires IsListing(all, HistoryOf(pel, c, threshold))
    ensures forall k :: k in all <==> k in pel && pel[k].owner == c && IdLess(threshold, k)
    ensures forall i, j | 0 <= i < j < |all| :: IdLess(all[i], all[j])
  {
  }

  /** The entries that have been idle for long enough. */
  function IdleSince(pel: map<Id, Pending>, now: int, minIdle: int): set<Id> {
    set k | k in pel && now - pel[k].timeRead >= minIdle
  }

  /** The elements of a set, in ascending order. */
  ghost predicate IsListing(all: seq<Id>, keys: set<Id>) {
    IsAscending(all) && forall k :: k in all <==> k in keys
  }

  /** The entries that may be claimed, longest idle first. */
  ghost predicate IsCandidates(all: seq<Id>, pel: map<Id, Pending>, now: int, minIdle: int) {
    IsSortedBy(all, ClaimOrder(pel)) && forall k :: k in all <==> k in IdleSince(pel, now, minIdle)
  }

  /** The candidates are the entries idle for long enough; those idle longer come first, and equal ones by id. */
  lemma CandidatesAre(all: seq<Id>, pel: map<Id, Pending>, now: int, minIdle: int)
    requires IsCandidates(all, pel, now, minIdle)
    ensures forall k :: k in all <==> k in pel && now - pel[k].timeRead >= minIdle
    ensures forall i, j | 0 <= i < j < |all| ::
      && all[i] in pel && all[j] in pel && pel[all[i]].timeRead <= pel[all[j]].timeRead
      && (pel[all[i]].timeRead == pel[all[j]].timeRead ==> IdLess(all[i], all[j]))
  {
    forall i, j | 0 <= i < j < |all|
      ensures all[i] in pel && all[j] in pel && pel[all[i]].timeRead <= pel[all[j]].timeRead
      ensures pel[all[i]].timeRead == pel[all[j]].timeRead ==> IdLess(all[i], all[j])
    {
      assert all[i] in all && all[j] in all && ClaimOrder(pel)(all[i], all[j]);
    }
  }

  function Stored(ids: seq<Id>, values: map<Id, Entry>): seq<Id> {
    Filter(ids, (k: Id) => k in values)
  }

  lemma StoredAppend(ids: seq<Id>, k: Id, values: map<Id, Entry>)
    ensures Stored(ids + [k], values) == Stored(ids, values) + if k in values then [k] else []
  {
    FilterAppend(ids, [k], (k: Id) => k in values);
  }

  /** An entry that XCLAIM acts on: it is listed and idle, or it is not listed and the claim is forced. */
  predicate IsClaimable(pel: map<Id, Pending>, k: Id, options: ClaimOptions) {
    if k in pel then IsIdle(pel[k], options.now, options.minIdle) else options.force
  }

  /** The ids claimed, and those whose entries are no longer stored, in the order of the arguments. */
  function ClaimAnswers(
      pel: map<Id, Pending>, ids: seq<Id>, stored: set<Id>, c: Bytes, options: ClaimOptions): (seq<Id>, seq<Id>)
  {
    if ids == [] then ([], [])
    else
      var init, k := ids[..|ids| - 1], ids[|ids| - 1];
      var (taken, gone) := ClaimAnswers(pel, init, stored, c, options);
      if !IsClaimable(ClaimedEntries(pel, init, stored, c, options), k, options) then (taken, gone)
      else if k in stored then (taken + [k], gone)
      else (taken, gone + [k])
  }

  /** An id is answered if and only if it is listed and idle, or not listed and forced; its entry decides in which list. */
  lemma {:induction false} ClaimAnswersIff(
      pel: map<Id, Pending>, ids: seq<Id>, stored: set<Id>, c: Bytes, options: ClaimOptions, k: Id)
    ensures
      var (taken, gone) := ClaimAnswers(pel, ids, stored, c, options);
      && (k in taken <==> k in ids && k in stored && IsClaimable(pel, k, options))
      && (k in gone <==> k in ids && k !in stored && IsClaimable(pel, k, options))
  {
    if ids != [] {
      var init, last := ids[..|ids| - 1], ids[|ids| - 1];
      ClaimAnswersIff(pel, init, stored, c, options, k);
      ClaimedEntriesAt(pel, init, stored, c, options, k);
      assert k in ids <==> k in init || k == last;
    }
  }

  /** The ids that a claim acts on, whose entries are stored or not. */
  function ActsOn(pel: map<Id, Pending>, stored: set<Id>, options: ClaimOptions, kept: bool): Id -> bool {
    (k: Id) => (k in stored) == kept && IsClaimable(pel, k, options)
  }

  lemma FilterLast(init: seq<Id>, last: Id, p: Id -> bool)
    ensures Filter(init + [last], p) == Filter(init, p) + if p(last) then [last] else []
  {
    FilterAppend(init, [last], p);
    assert [last][1..] == [];
  }

  lemma UnclaimedStaysClaimable(
      pel: map<Id, Pending>, ids: seq<Id>, stored: set<Id>, c: Bytes, options: ClaimOptions, k: Id)
    requires k !in ids
    ensures IsClaimable(ClaimedEntries(pel, ids, stored, c, options), k, options) == IsClaimable(pel, k, options)
  {
    ClaimedEntriesAt(pel, ids, stored, c, options, k);
  }

  /** Of ids that differ, each is answered once, in the order of the arguments. */
  lemma {:induction false} ClaimAnswersInOrder(
      pel: map<Id, Pending>, ids: seq<Id>, stored: set<Id>, c: Bytes, options: ClaimOptions)
    requires Distinct(ids)
    ensures ClaimAnswers(pel, ids, stored, c, options) ==
            (Filter(ids, ActsOn(pel, stored, options, true)), Filter(ids, ActsOn(pel, stored, options, false)))
  {
    if ids != [] {
      var init, last := ids[..|ids| - 1], ids[|ids| - 1];
      ClaimAnswersInOrder(pel, init, stored, c, options);
      UnclaimedStaysClaimable(pel, init, stored, c, options, last);
      assert ids == init + [last];
      FilterLast(init, last, ActsOn(pel, stored, options, true));
      FilterLast(init, last, ActsOn(pel, stored, options, false));
      var (taken, gone) := ClaimAnswers(pel, init, stored, c, options);
      assert taken + [] == taken && gone + [] == gone;
    }
  }

  predicate IsNondecreasing(s: seq<Id>) {
    forall i, j | 0 <= i < j < |s| :: AtMost(s[i], s[j])
  }

  lemma InsertKeepsNondecreasing(s: seq<Id>, k: Id, at: int)
    requires IsNondecreasing(s) && IsCut(s, (x: Id) => IdLess(x, k), at)
    ensures IsNondecreasing(s[..at] + [k] + s[at..])
    ensures multiset(s[..at] + [k] + s[at..]) == multiset(s) + multiset{k}
  {
    assert s == s[..at] + s[at..];
  }

  /** sorted(ids), repetitions kept. */
  method SortList(ids: seq<Id>) returns (s: seq<Id>)
    ensures IsNondecreasing(s) && multiset(s) == multiset(ids)
  {
    s := [];
    for i := 0 to |ids|
      invariant IsNondecreasing(s) && multiset(s) == multiset(ids[..i])
    {
      var k := ids[i];
      var at := Bisect(s, (x: Id) => IdLess(x, k));
      InsertKeepsNondecreasing(s, k, at);
      s := s[..at] + [k] + s[at..];
      assert ids[..i + 1] == ids[..i] + [k];
    }
    assert ids[..|ids|] == ids;
  }

  /** Idle time and delivery count of an entry. */
  function Detail(pel: map<Id, Pending>, k: Id, now: int): (int, int) {
    if k in pel then (now - pel[k].timeRead, pel[k].times) else (0, 0)
  }

  function Details(pel: map<Id, Pending>, ids: seq<Id>, now: int): (r: seq<(int, int)>)
    ensures |r| == |ids|
  {
    if ids == [] then [] else Details(pel, ids[..|ids| - 1], now) + [Detail(pel, ids[|ids| - 1], now)]
  }

  /** Each detail is how long the entry has been idle and how often it was delivered. */
  lemma {:induction false} DetailsAt(pel: map<Id, Pending>, ids: seq<Id>, now: int, i: nat)
    requires i < |ids| && ids[i] in pel
    ensures Details(pel, ids, now)[i] == (now - pel[ids[i]].timeRead, pel[ids[i]].times)
  {
    if i < |ids| - 1 {
      DetailsAt(pel, ids[..|ids| - 1], now, i);
    }
  }

  /** The entries of the ids are listed, and as they were. */
  ghost predicate Untouched(before: map<Id, Pending>, pel: map<Id, Pending>, ids: seq<Id>) {
    forall i | 0 <= i < |ids| :: ids[i] in before && ids[i] in pel && pel[ids[i]] == before[ids[i]]
  }

  lemma NextCandidate(
      candidates: seq<Id>, i: nat, values: map<Id, Entry>, before: map<Id, Pending>, pel: map<Id, Pending>,
      claimed: seq<Id>, c: Bytes, now: int)
    requires i < |candidates| && Distinct(candidates) && Untouched(before, pel, candidates[i..])
    ensures candidates[..i + 1][..i] == candidates[..i]
    ensures Stored(candidates[..i + 1], values) ==
            Stored(candidates[..i], values) + if candidates[i] in values then [candidates[i]] else []
    ensures candidates[i] in pel && Detail(pel, candidates[i], now) == Detail(before, candidates[i], now)
    ensures Details(before, claimed + [candidates[i]], now) == Details(before, claimed, now) + [Detail(pel, candidates[i], now)]
    ensures Untouched(before, pel, candidates[i + 1..])
    ensures Untouched(before, pel[candidates[i] := Pending(c, now, pel[candidates[i]].times + 1)], candidates[i + 1..])
  {
    var rest := candidates[i..];
    assert rest[0] == candidates[i] && forall j | 1 <= j < |rest| :: rest[j] == candidates[i + j] != candidates[i];
    assert candidates[i + 1..] == rest[1..];
    assert candidates[..i + 1] == candidates[..i] + [candidates[i]];
    StoredAppend(candidates[..i], candidates[i], values);
    assert (claimed + [candidates[i]])[..|claimed|] == claimed;
  }

  lemma CandidatesAreDistinct(
      all: seq<Id>, candidates: seq<Id>, pel: map<Id, Pending>, now: int, minIdle: int, count: Option<int>)
    requires IsCandidates(all, pel, now, minIdle) && candidates == if count.None? then all else Take(all, count.value)
    ensures Distinct(candidates) && forall k | k in candidates :: k in pel
  {
    ClaimOrderIsOrder(pel);
    forall k | k in candidates ensures k in pel {
      assert k in all;
    }
  }

  // ---------- the group object ----------

  class StreamGroup {
    const stream: XStream
    var last: Id
    var consumers: map<Bytes, int>
    var pel: map<Id, Pending>

    constructor (stream: XStream, start: Id)
      ensures Abs() == Group(start, map[], map[]) && this.stream == stream
    {
      this.stream := stream;
      last, consumers, pel := start, map[], map[];
    }

    function Abs(): Group
      reads this
    {
      Group(last, consumers, pel)
    }

    /** XGROUP CREATECONSUMER: 1 when the consumer is new. */
    method AddConsumer(c: Bytes) returns (added: int)
      modifies this`consumers
      ensures Abs() == old(Abs()).(consumers := Registered(old(consumers), c))
      ensures added == if c in old(consumers) then 0 else 1
    {
      if c in consumers {
        return 0;
      }
      consumers := consumers[c := 0];
      return 1;
    }

    /** XGROUP DELCONSUMER: the answer is the consumer's counter. */
    method DeleteConsumer(c: Bytes) returns (pending: int)
      modifies this`consumers
      ensures Abs() == WithoutConsumer(old(Abs()), c)
      ensures pending == if c in old(consumers) then old(consumers)[c] else 0
      ensures old(PendingOk(Abs())) && c in old(consumers) && c != NOBODY ==> pending == |Owned(pel, c)|
    {
      if c !in consumers {
        return 0;
      }
      pending := consumers[c];
      consumers := consumers - {c};
    }

    method Enlist(ids: seq<Id>, c: Bytes, now: int)
      modifies this`pel
      ensures pel == Enlisted(old(pel), ids, c, now)
    {
      for i := 0 to |ids|
        invariant pel == Enlisted(old(pel), ids[..i], c, now)
      {
        assert forall k :: k in ids[..i + 1] <==> k in ids[..i] || k == ids[i];
        pel := pel[ids[i] := Pending(c, now, 1)];
      }
      assert ids[..|ids|] == ids;
    }

    /** The `>` read: the ids after the last one delivered, which the consumer now owns unless NOACK was given. */
    method GroupRead(c: Bytes, count: Option<int>, noack: bool, now: int) returns (ids: seq<Id>)
      requires stream.Valid()
      modifies this
      ensures ids == ReadAfter(stream.ids, old(last), count)
      ensures Abs() == ReadNew(old(Abs()), ids, c, noack, now)
    {
      var _ := AddConsumer(c);
      ids := stream.StreamRead(last, count);
      if !noack {
        Enlist(ids, c, now);
      }
      if |ids| > 0 {
        last := MaxId(last, ids[|ids| - 1]);
      }
      consumers := consumers[c := consumers[c] + |ids|];
    }

    /** A read of the consumer's own pending entries above an id. */
    method GroupHistory(c: Bytes, threshold: Id, count: Option<int>) returns (ids: seq<Id>)
      modifies this
      ensures exists all ::
        IsListing(all, HistoryOf(old(pel), c, threshold)) && ids == if count.None? then all else Take(all, count.value)
      ensures Abs() == ReadAgain(old(Abs()), ids, c)
    {
      var _ := AddConsumer(c);
      IdOrder();
      var all := SortIds(HistoryOf(pel, c, threshold), IdLess);
      assert IsListing(all, HistoryOf(pel, c, threshold));
      ids := if count.None? then all else Take(all, count.value);
      AscendingIsDistinct(all, ids, count);
      Redeliver(ids);
    }

    /** The loop of a history read. */
    method Redeliver(ids: seq<Id>)
      requires Distinct(ids) && forall k | k in ids :: k in pel
      modifies this`pel
      ensures pel == Redelivered(old(pel), ids)
    {
      for i := 0 to |ids|
        invariant pel == Redelivered(old(pel), ids[..i])
      {
        assert ids[i] !in ids[..i];
        assert forall k :: k in ids[..i + 1] <==> k in ids[..i] || k == ids[i];
        var e := pel[ids[i]];
        pel := pel[ids[i] := e.(times := e.times + 1)];
      }
      assert ids[..|ids|] == ids;
    }

    method AckEntry(k: Id) returns (r: Option<bool>)
      modifies this
      ensures r.None? <==> AckOne(old(Abs()), k).None?
      ensures r.None? ==> Abs() == old(Abs())
      ensures r.Some? ==> AckOne(old(Abs()), k) == Some(Abs()) && r.value == (k in old(pel))
    {
      if k !in pel {
        return Some(false);
      }
      var owner := pel[k].owner;
      if owner !in consumers {
        return None;
      }
      consumers := consumers[owner := consumers[owner] - 1];
      pel := pel - {k};
      return Some(true);
    }

    /** XACK; ids that do not parse are not among the arguments. None is the KeyError. */
    method Ack(ids: seq<Id>) returns (r: Option<int>)
      modifies this
      ensures
        var (g, n) := AckAll(old(Abs()), ids);
        r == n && Abs() == if n.None? then g else WithOwners(g)
    {
      var res := 0;
      for i := 0 to |ids|
        invariant (Abs(), Some(res)) == AckAll(old(Abs()), ids[..i])
      {
        assert ids[..i + 1][..i] == ids[..i];
        var one := AckEntry(ids[i]);
        if one.None? {
          AckAllStops(old(Abs()), ids, i + 1);
          return None;
        }
        res := res + if one.value then 1 else 0;
      }
      assert ids[..|ids|] == ids;
      consumers := (map c | c in Owners(pel) :: 0) + consumers;
      return Some(res);
    }

    /** XNACK of one id. */
    method NackEntry(k: Id, mode: NackMode, retry: Option<int>, force: bool) returns (released: bool)
      modifies this
      ensures Abs() == NackOne(old(Abs()), k, k in stream.values, mode, retry, force)
      ensures released == (k in old(pel) || (force && k in stream.values))
    {
      if k !in pel {
        if force && k in stream.values {
          var times := if retry.Some? then retry.value else if mode == Fatal then MAX_DELIVERY_COUNT else 0;
          pel := pel[k := Pending(NOBODY, 0, times)];
          return true;
        }
        return false;
      }
      var e := pel[k];
      if e.owner != NOBODY && e.owner in consumers {
        consumers := consumers[e.owner := consumers[e.owner] - 1];
      }
      pel := pel[k := Pending(NOBODY, 0, NackTimes(e.times, mode, retry))];
      return true;
    }

    /**
     The claiming part of XREADGROUP: idle entries change hands, longest idle
     first. Each claimed id comes with how long it had been idle and how often
     it had been delivered.
     */
    method ClaimForRead(minIdle: int, c: Bytes, now: int, count: Option<int>)
      returns (claimed: seq<Id>, details: seq<(int, int)>)
      modifies this
      ensures exists all ::
        && IsCandidates(all, old(pel), now, minIdle)
        && var candidates := if count.None? then all else Take(all, count.value);
           && Abs() == ClaimAll(old(Abs()).(consumers := Registered(old(consumers), c)), candidates, stream.values.Keys, c, now)
           && claimed == Stored(candidates, stream.values)
      ensures details == Details(old(pel), claimed, now)
    {
      var _ := AddConsumer(c);
      ClaimOrderIsOrder(pel);
      var all := SortIds(IdleSince(pel, now, minIdle), ClaimOrder(pel));
      assert IsCandidates(all, old(pel), now, minIdle);
      var candidates := if count.None? then all else Take(all, count.value);
      CandidatesAreDistinct(all, candidates, pel, now, minIdle, count);
      claimed, details := ClaimCandidates(candidates, c, now);
    }

    method ClaimCandidates(candidates: seq<Id>, c: Bytes, now: int) returns (claimed: seq<Id>, details: seq<(int, int)>)
      requires c in consumers && Distinct(candidates) && forall j | 0 <= j < |candidates| :: candidates[j] in pel
      modifies this
      ensures Abs() == ClaimAll(old(Abs()), candidates, stream.values.Keys, c, now)
      ensures claimed == Stored(candidates, stream.values)
      ensures details == Details(old(pel), claimed, now)
    {
      claimed, details := [], [];
      for i := 0 to |candidates|
        invariant Abs() == ClaimAll(old(Abs()), candidates[..i], stream.values.Keys, c, now)
        invariant claimed == Stored(candidates[..i], stream.values) && details == Details(old(pel), claimed, now)
        invariant c in consumers && Untouched(old(pel), pel, candidates[i..])
      {
        var k := candidates[i];
        NextCandidate(candidates, i, stream.values, old(pel), pel, claimed, c, now);
        var taken, detail := ClaimCandidate(k, c, now);
        if taken {
          claimed, details := claimed + [k], details + [detail];
        }
      }
      assert candidates[..|candidates|] == candidates;
    }

    /** Claims a candidate that is still in the stream. */
    method ClaimCandidate(k: Id, c: Bytes, now: int) returns (taken: bool, detail: (int, int))
      requires k in pel && c in consumers
      modifies this
      ensures taken == (k in stream.values) && detail == Detail(old(pel), k, now)
      ensures Abs() == if taken then ClaimOne(old(Abs()), k, c, now) else old(Abs())
    {
      taken, detail := k in stream.values, Detail(pel, k, now);
      if taken {
        ClaimEntry(k, c, now);
      }
    }

    method ClaimEntry(k: Id, c: Bytes, now: int)
      requires k in pel && c in consumers
      modifies this
      ensures Abs() == ClaimOne(old(Abs()), k, c, now)
    {
      var e := pel[k];
      if e.owner != c {
        if e.owner in consumers {
          consumers := consumers[e.owner := consumers[e.owner] - 1];
        }
        consumers := consumers[c := consumers[c] + 1];
      }
      pel := pel[k := Pending(c, now, e.times + 1)];
    }

    /** XCLAIM, and XAUTOCLAIM without FORCE: the ids claimed, and those whose entries were deleted, both in order. */
    method Claim(ids: seq<Id>, c: Bytes, options: ClaimOptions) returns (claimed: seq<Id>, deleted: seq<Id>)
      modifies this
      ensures Abs() == Claimed(old(Abs()), ids, stream.values.Keys, c, options)
      ensures
        var (taken, gone) := ClaimAnswers(old(pel), ids, stream.values.Keys, c, options);
        && IsNondecreasing(claimed) && multiset(claimed) == multiset(taken)
        && IsNondecreasing(deleted) && multiset(deleted) == multiset(gone)
    {
      var taken: seq<Id>, gone: seq<Id> := [], [];
      for i := 0 to |ids|
        invariant last == old(last) && consumers == old(consumers)
        invariant pel == ClaimedEntries(old(pel), ids[..i], stream.values.Keys, c, options)
        invariant (taken, gone) == ClaimAnswers(old(pel), ids[..i], stream.values.Keys, c, options)
      {
        assert ids[..i + 1][..i] == ids[..i];
        var acted := ClaimById(ids[i], c, options);
        if acted && ids[i] in stream.values {
          taken := taken + [ids[i]];
        } else if acted {
          gone := gone + [ids[i]];
        }
      }
      assert ids[..|ids|] == ids;
      consumers := (map d | d in Owners(pel) :: 0) + consumers;
      claimed := SortList(taken);
      deleted := SortList(gone);
    }

    /** One round of the loop; the answer says whether the claim acts on the id. */
    method ClaimById(k: Id, c: Bytes, options: ClaimOptions) returns (acted: bool)
      modifies this`pel
      ensures pel == ClaimedEntry(old(pel), k, k in stream.values, c, options)
      ensures acted == IsClaimable(old(pel), k, options)
    {
      var stored := k in stream.values;
      if k !in pel {
        if options.force && stored {
          pel := pel[k := Pending(c, options.time, 1)];
        }
        return options.force;
      }
      if !IsIdle(pel[k], options.now, options.minIdle) {
        return false;
      }
      if stored {
        pel := pel[k := Pending(c, options.time, pel[k].times + 1)];
      } else {
        pel := pel - {k};
      }
      return true;
    }

    /** What XDELEX and XACKDEL do to every group for a deleted entry, in DELREF mode. */
    method DropReference(k: Id)
      modifies this
      ensures Abs() == Dereferenced(old(Abs()), k)
    {
      if k in pel {
        var c := pel[k].owner;
        if c != NOBODY && c in consumers {
          consumers := consumers[c := consumers[c] - 1];
        }
        pel := pel - {k};
      }
    }
  }

  lemma AscendingIsDistinct(all: seq<Id>, ids: seq<Id>, count: Option<int>)
    requires IsAscending(all) && ids == (if count.None? then all else Take(all, count.value))
    ensures Distinct(ids) && forall k | k in ids :: k in all
  {
  }
}
