/**
 Runs of everything that happens to a consumer group: when the counters stay
 right, and when an acknowledgement raises.
 */
module GroupRuns {
  import opened Arithmetic
  import opened Bytes
  import opened Groups
  import opened Options
  import opened Slices
  import opened Sorted
  import opened Streams

  /** Take is a claim that is part of a read, Claim is XCLAIM or XAUTOCLAIM. */
  datatype Event =
    | Read(ids: seq<Id>, c: Bytes, noack: bool, now: int)
    | History(ids: seq<Id>, c: Bytes)
    | Ack(ids: seq<Id>)
    | Nack(k: Id, stored: bool, mode: NackMode, retry: Option<int>, force: bool)
    | Take(k: Id, c: Bytes, now: int)
    | Claim(ids: seq<Id>, present: set<Id>, c: Bytes, options: ClaimOptions)
    | Dereference(k: Id)
    | CreateConsumer(c: Bytes)
    | DeleteConsumer(c: Bytes)
    | SetId(last: Id)

  function Step(g: Group, e: Event): Group {
    match e
    case Read(ids, c, noack, now) => ReadNew(g, ids, c, noack, now)
    case History(ids, c) => ReadAgain(g, ids, c)
    case Ack(ids) => var (h, n) := AckAll(g, ids); if n.None? then h else WithOwners(h)
    case Nack(k, stored, mode, retry, force) => NackOne(g, k, stored, mode, retry, force)
    case Take(k, c, now) =>
      var h := g.(consumers := Registered(g.consumers, c));
      if k in h.pel then ClaimOne(h, k, c, now) else h
    case Claim(ids, present, c, options) => Claimed(g, ids, present, c, options)
    case Dereference(k) => Dereferenced(g, k)
    case CreateConsumer(c) => g.(consumers := Registered(g.consumers, c))
    case DeleteConsumer(c) => WithoutConsumer(g, c)
    case SetId(last) => g.(last := last)
  }

  function New(start: Id): Group {
    Group(start, map[], map[])
  }

  function Run(g: Group, es: seq<Event>): Group {
    if es == [] then g else Step(Run(g, es[..|es| - 1]), es[|es| - 1])
  }

  lemma RunAppend(g: Group, es: seq<Event>, e: Event)
    ensures Run(g, es + [e]) == Step(Run(g, es), e)
  {
    assert (es + [e])[..|es|] == es;
  }

  lemma RunOne(g: Group, e: Event)
    ensures Run(g, [e]) == Step(g, e)
  {
    RunAppend(g, [], e);
    assert [] + [e] == [e];
  }

  // ---------- when the counters stay right ----------

  /** What has to hold before an event for the counters to be right after it. */
  ghost predicate IsCareful(g: Group, e: Event) {
    match e
    case Read(ids, c, noack, _) =>
      if noack then ids == [] || c == NOBODY else NoneOwned(g, ids) && (c == NOBODY || Distinct(ids))
    case Claim(ids, present, c, options) => ClaimsBalance(g.pel, ids, present, c, options)
    case DeleteConsumer(c) => c == NOBODY || Owned(g.pel, c) == {}
    case _ => true
  }

  /** Each event keeps the counters right if and only if it is careful. */
  lemma StepKeepsPendingIff(g: Group, e: Event)
    requires PendingOk(g)
    ensures PendingOk(Step(g, e)) <==> IsCareful(g, e)
  {
    match e
    case Read(ids, c, noack, now) =>
      if noack {
        NoAckReadKeepsPendingIff(g, ids, c, now);
      } else {
        ReadNewKeepsPendingIff(g, ids, c, now);
      }
    case Claim(ids, present, c, options) => ClaimsKeepPendingIff(g, ids, present, c, options);
    case DeleteConsumer(c) => DelConsumerKeepsPendingIff(g, c);
    case _ => HarmlessKeepsPending(g, e);
  }

  lemma HarmlessKeepsPending(g: Group, e: Event)
    requires PendingOk(g) && !e.Read? && !e.Claim? && !e.DeleteConsumer?
    ensures PendingOk(Step(g, e))
  {
    match e
    case History(ids, c) => ReadAgainKeepsPending(g, ids, c);
    case Ack(ids) =>
      AckAllKeepsPending(g, ids);
      WithOwnersKeepsPending(AckAll(g, ids).0);
    case Nack(k, stored, mode, retry, force) => NackKeepsPending(g, k, stored, mode, retry, force);
    case Take(k, c, now) =>
      RegisteredKeepsPending(g, c);
      var h := g.(consumers := Registered(g.consumers, c));
      if k in h.pel {
        ClaimKeepsPending(h, k, c, now);
      }
    case Dereference(k) => DereferencedKeepsPending(g, k);
    case CreateConsumer(c) => RegisteredKeepsPending(g, c);
    case SetId(last) =>
  }

  /** Every event was careful when its turn came. */
  ghost predicate AllCareful(g: Group, es: seq<Event>) {
    es != [] ==> AllCareful(g, es[..|es| - 1]) && IsCareful(Run(g, es[..|es| - 1]), es[|es| - 1])
  }

  /** The counters are right at every moment of a run. */
  ghost predicate RightThroughout(g: Group, es: seq<Event>) {
    PendingOk(Run(g, es)) && (es != [] ==> RightThroughout(g, es[..|es| - 1]))
  }

  /**
   Over any run whatever from a new group, the counters are right at every
   moment if and only if every event was careful when its turn came.
   */
  lemma {:induction false} CountersRightThroughoutIff(start: Id, es: seq<Event>)
    ensures RightThroughout(New(start), es) <==> AllCareful(New(start), es)
  {
    if es != [] {
      var n := |es| - 1;
      CountersRightThroughoutIff(start, es[..n]);
      if PendingOk(Run(New(start), es[..n])) {
        StepKeepsPendingIff(Run(New(start), es[..n]), es[n]);
      }
    }
  }

  // ---------- runs that are careful without looking at the owners ----------

  /**
   Reads return ids above the last one given, and a consumer is given no entry
   above it by other means: claims take entries that were given before, and
   SETID does not go back behind an entry somebody owns.
   */
  ghost predicate Proper(g: Group, e: Event) {
    match e
    case Read(ids, c, noack, _) =>
      IsAscending(ids) && (noack ==> IsCareful(g, e)) && forall k | k in ids :: IdLess(g.last, k)
    case Take(k, c, _) => k in g.pel && c != NOBODY ==> AtMost(k, g.last)
    case Claim(ids, _, c, _) => IsCareful(g, e) && forall k | k in ids && c != NOBODY :: AtMost(k, g.last)
    case DeleteConsumer(_) => IsCareful(g, e)
    case SetId(last) => forall k | k in g.pel && g.pel[k].owner != NOBODY :: AtMost(k, last)
    case _ => true
  }

  ghost predicate AllProper(g: Group, es: seq<Event>) {
    es != [] ==> AllProper(g, es[..|es| - 1]) && Proper(Run(g, es[..|es| - 1]), es[|es| - 1])
  }

  /** Nobody owns an entry that was not given before. */
  ghost predicate OwnedWereGiven(g: Group) {
    forall k | k in g.pel && g.pel[k].owner != NOBODY :: AtMost(k, g.last)
  }

  ghost predicate Inv(g: Group) {
    PendingOk(g) && OwnedWereGiven(g)
  }

  lemma LastIsHighest(ids: seq<Id>)
    requires IsAscending(ids) && ids != []
    ensures forall k | k in ids :: AtMost(k, ids[|ids| - 1])
  {
    forall k | k in ids ensures AtMost(k, ids[|ids| - 1]) {
      var i :| 0 <= i < |ids| && ids[i] == k;
      assert i < |ids| - 1 ==> IdLess(ids[i], ids[|ids| - 1]);
    }
  }

  lemma StepKeepsInv(g: Group, e: Event)
    requires Inv(g) && Proper(g, e)
    ensures IsCareful(g, e) && Inv(Step(g, e))
  {
    StepKeepsPendingIff(g, e);
    StepKeepsGiven(g, e);
  }

  lemma StepKeepsGiven(g: Group, e: Event)
    requires OwnedWereGiven(g) && Proper(g, e)
    ensures OwnedWereGiven(Step(g, e))
  {
    match e
    case Read(ids, c, noack, now) =>
      if ids != [] {
        LastIsHighest(ids);
      }
    case Ack(ids) => AckAllShrinks(g, ids);
    case Claim(ids, present, c, options) =>
      var p := ClaimedEntries(g.pel, ids, present, c, options);
      forall k | k in p && p[k].owner != NOBODY ensures AtMost(k, g.last) {
        ClaimedEntriesAt(g.pel, ids, present, c, options, k);
      }
    case _ =>
  }

  lemma {:induction false} RunKeepsInv(g: Group, es: seq<Event>)
    requires Inv(g) && AllProper(g, es)
    ensures Inv(Run(g, es)) && AllCareful(g, es)
  {
    if es != [] {
      var n := |es| - 1;
      RunKeepsInv(g, es[..n]);
      StepKeepsInv(Run(g, es[..n]), es[n]);
    }
  }

  /** Over every proper run from a new group, each named consumer's counter is the number of entries it owns. */
  lemma CountersStayRight(start: Id, es: seq<Event>)
    requires AllProper(New(start), es)
    ensures
      var g := Run(New(start), es);
      && (forall c | c in g.consumers && c != NOBODY :: g.consumers[c] == |Owned(g.pel, c)|)
      && (forall k | k in g.pel && g.pel[k].owner != NOBODY :: g.pel[k].owner in g.consumers)
  {
    RunKeepsInv(New(start), es);
  }

  // ---------- when an acknowledgement raises ----------

  /** The event makes c a consumer, or finds it one. */
  ghost predicate Registers(g: Group, e: Event, c: Bytes) {
    match e
    case Read(_, d, _, _) => c == d
    case History(_, d) => c == d
    case Take(_, d, _) => c == d
    case CreateConsumer(d) => c == d
    case Ack(ids) => var (h, n) := AckAll(g, ids); n.Some? && c in Owners(h.pel)
    case Claim(ids, present, d, options) => c in Owners(ClaimedEntries(g.pel, ids, present, d, options))
    case _ => false
  }

  lemma StepRegisters(g: Group, e: Event, c: Bytes)
    ensures c in Step(g, e).consumers <==> (c in g.consumers && e != DeleteConsumer(c)) || Registers(g, e, c)
  {
    if e.Ack? {
      AckAllShrinks(g, e.ids);
    }
  }

  /** Some event registered c, and c has not been deleted since. */
  ghost predicate RegisteredSince(g: Group, es: seq<Event>, c: Bytes) {
    exists i | 0 <= i < |es| :: LastRegisteredAt(g, es, i, c)
  }

  ghost predicate LastRegisteredAt(g: Group, es: seq<Event>, i: nat, c: Bytes)
    requires i < |es|
  {
    Registers(Run(g, es[..i]), es[i], c) && forall j | i < j < |es| :: es[j] != DeleteConsumer(c)
  }

  lemma LastRegisteredBefore(g: Group, es: seq<Event>, i: nat, c: Bytes)
    requires i < |es| - 1
    ensures
      LastRegisteredAt(g, es, i, c) <==>
        LastRegisteredAt(g, es[..|es| - 1], i, c) && es[|es| - 1] != DeleteConsumer(c)
  {
    assert es[..|es| - 1][..i] == es[..i];
  }

  lemma RegisteredSinceStep(g: Group, es: seq<Event>, c: Bytes)
    requires es != []
    ensures
      var init, e := es[..|es| - 1], es[|es| - 1];
      RegisteredSince(g, es, c) <==> (RegisteredSince(g, init, c) && e != DeleteConsumer(c)) || Registers(Run(g, init), e, c)
  {
    var n := |es| - 1;
    forall i: nat | i < n
      ensures LastRegisteredAt(g, es, i, c) <==> LastRegisteredAt(g, es[..n], i, c) && es[n] != DeleteConsumer(c)
    {
      LastRegisteredBefore(g, es, i, c);
    }
    assert LastRegisteredAt(g, es, n, c) <==> Registers(Run(g, es[..n]), es[n], c);
  }

  /** Over any run: the consumers are those registered and not deleted since. */
  lemma {:induction false} ConsumersAreRegistered(start: Id, es: seq<Event>, c: Bytes)
    ensures c in Run(New(start), es).consumers <==> RegisteredSince(New(start), es, c)
  {
    if es != [] {
      ConsumersAreRegistered(start, es[..|es| - 1], c);
      StepRegisters(Run(New(start), es[..|es| - 1]), es[|es| - 1], c);
      RegisteredSinceStep(New(start), es, c);
    }
  }

  /** A name that comes to own an entry is registered by the same event. */
  lemma NewOwnerIsRegistered(g: Group, e: Event, k: Id)
    requires var h := Step(g, e); k in h.pel && h.pel[k].owner != NOBODY
    ensures var c := Step(g, e).pel[k].owner; Registers(g, e, c) || (k in g.pel && g.pel[k].owner == c)
  {
    match e
    case Ack(ids) => AckAllShrinks(g, ids);
    case Claim(ids, present, c, options) =>
      var p := ClaimedEntries(g.pel, ids, present, c, options);
      assert p[k].owner in Owners(p);
    case _ =>
  }

  /** Over any run: a named owner is registered, or was deleted. */
  lemma {:induction false} NamedOwnerWasDeleted(start: Id, es: seq<Event>, k: Id)
    requires var g := Run(New(start), es); k in g.pel && g.pel[k].owner != NOBODY
    ensures var c := Run(New(start), es).pel[k].owner; RegisteredSince(New(start), es, c) || DeleteConsumer(c) in es
  {
    var n := |es| - 1;
    var init, e := es[..n], es[n];
    var g, c := Run(New(start), init), Run(New(start), es).pel[k].owner;
    NewOwnerIsRegistered(g, e, k);
    RegisteredSinceStep(New(start), es, c);
    if !Registers(g, e, c) {
      NamedOwnerWasDeleted(start, init, k);
      assert es == init + [e];
    }
  }

  /**
   Over any run from a new group: acknowledging an entry raises KeyError if and
   only if it is listed and its owner is not registered, or was deleted and not
   registered again. Such an owner is nobody, after a release or a read without
   a name, or a name that was deleted.
   */
  lemma AckRaisesIff(start: Id, es: seq<Event>, k: Id)
    ensures
      var g := Run(New(start), es);
      && (AckOne(g, k).None? <==> k in g.pel && !RegisteredSince(New(start), es, g.pel[k].owner))
      && (AckOne(g, k).None? ==> g.pel[k].owner == NOBODY || DeleteConsumer(g.pel[k].owner) in es)
  {
    var g := Run(New(start), es);
    if k in g.pel {
      ConsumersAreRegistered(start, es, g.pel[k].owner);
      if g.pel[k].owner != NOBODY {
        NamedOwnerWasDeleted(start, es, k);
      }
    }
  }

  // ---------- runs that go wrong ----------

  /** XGROUP SETID: the last id delivered becomes that of an entry, found from the id given and the number of entries read. */
  function Repositioned(ids: seq<Id>, at: Id, entriesRead: nat): Event
    requires ids != []
  {
    SetId(ids[Min(|Filter(ids, (k: Id) => IdLess(k, at))| + entriesRead, |ids| - 1)])
  }

  /** The id reached is the one as many places behind the first that is not below, and the last one if there are too few. */
  lemma RepositionedAt(ids: seq<Id>, at: Id, entriesRead: nat, n: nat)
    requires IsAscending(ids) && n < |ids| && forall i | 0 <= i < |ids| :: IdLess(ids[i], at) <==> i < n
    ensures Repositioned(ids, at, entriesRead) == SetId(ids[Min(n + entriesRead, |ids| - 1)])
  {
    FilterIsSlice(ids, (k: Id) => IdLess(k, at), 0, n);
  }

  /** A consumer reads one entry in a new group. */
  lemma AfterOneRead(start: Id, k: Id, c: Bytes, now: int) returns (g: Group)
    requires IdLess(start, k)
    ensures AllProper(New(start), [Read([k], c, false, now)])
    ensures g == Run(New(start), [Read([k], c, false, now)])
    ensures g == Group(k, map[c := 1], map[k := Pending(c, now, 1)]) && PendingOk(g)
  {
    var e := Read([k], c, false, now);
    g := Step(New(start), e);
    RunOne(New(start), e);
    assert [e][..0] == [] && AllProper(New(start), []);
    StepKeepsInv(New(start), e);
    assert g.pel == map[k := Pending(c, now, 1)] && g.consumers == map[c := 1];
  }

  /** Read, released, acknowledged: the acknowledgement raises. */
  lemma ReleasedAckRaises(
      start: Id, k: Id, c: Bytes, now: int, stored: bool, mode: NackMode, retry: Option<int>, force: bool)
    requires IdLess(start, k) && c != NOBODY
    ensures
      var es := [Read([k], c, false, now)] + [Nack(k, stored, mode, retry, force)];
      AckAll(Run(New(start), es), [k]).1.None?
  {
    var g := AfterOneRead(start, k, c, now);
    var nack := Nack(k, stored, mode, retry, force);
    RunAppend(New(start), [Read([k], c, false, now)], nack);
    var h := Step(g, nack);
    assert h.consumers == map[c := 0];
    assert [k][..0] == [] && AckOne(h, k).None?;
  }

  /** Read, the consumer deleted, acknowledged: the acknowledgement raises. */
  lemma DeletedOwnerAckRaises(start: Id, k: Id, c: Bytes, now: int)
    requires IdLess(start, k)
    ensures
      var es := [Read([k], c, false, now)] + [DeleteConsumer(c)];
      AckAll(Run(New(start), es), [k]).1.None?
  {
    var g := AfterOneRead(start, k, c, now);
    RunAppend(New(start), [Read([k], c, false, now)], DeleteConsumer(c));
    var h := Step(g, DeleteConsumer(c));
    assert h.consumers == map[];
    assert [k][..0] == [] && AckOne(h, k).None?;
  }

  /** In a new group, a NOACK read of one entry, or its forced claim, makes a counter wrong. */
  lemma NewGroupGoesWrong(start: Id, k: Id, c: Bytes, now: int, options: ClaimOptions)
    requires IdLess(start, k) && c != NOBODY && options.force
    ensures !PendingOk(Run(New(start), [Read([k], c, true, now)]))
    ensures !PendingOk(Run(New(start), [Claim([k], {k}, c, options)]))
  {
    RunOne(New(start), Read([k], c, true, now));
    RunOne(New(start), Claim([k], {k}, c, options));
    NoAckReadKeepsPendingIff(New(start), [k], c, now);
    ClaimKeepsPendingIff(New(start), k, {k}, c, options);
  }

  /**
   After one consumer read one entry: a claim by another consumer, a claim by
   the same one after the entry was deleted from the stream, and the deletion
   of the consumer each make a counter wrong.
   */
  lemma OwnedEntryGoesWrong(start: Id, k: Id, c: Bytes, other: Bytes, now: int, options: ClaimOptions)
    requires IdLess(start, k) && c != NOBODY && other != c && options.now - now >= options.minIdle
    ensures
      var g := Run(New(start), [Read([k], c, false, now)]);
      && PendingOk(g)
      && !PendingOk(Step(g, Claim([k], {k}, other, options)))
      && !PendingOk(Step(g, Claim([k], {}, c, options)))
      && !PendingOk(Step(g, DeleteConsumer(c)))
  {
    var g := AfterOneRead(start, k, c, now);
    ClaimKeepsPendingIff(g, k, {k}, other, options);
    ClaimKeepsPendingIff(g, k, {}, c, options);
    assert k in Owned(g.pel, c);
    DelConsumerKeepsPendingIff(g, c);
  }

  lemma AfterTwoReads(start: Id, j: Id, k: Id, c: Bytes, now: int) returns (g: Group)
    requires IdLess(start, j) && IdLess(j, k) && c != NOBODY
    ensures g == Run(New(start), [Read([j, k], c, false, now)])
    ensures PendingOk(g) && k in g.pel && g.pel[k].owner == c
  {
    var e := Read([j, k], c, false, now);
    g := Step(New(start), e);
    RunOne(New(start), e);
    StepKeepsInv(New(start), e);
    assert k in [j, k];
  }

  /** Two entries are read, SETID goes back, and the second is read again: it is counted twice. */
  lemma RereadGoesWrong(start: Id, j: Id, k: Id, c: Bytes, now: int)
    requires IdLess(start, j) && IdLess(j, k) && c != NOBODY
    ensures
      var g := Run(New(start), [Read([j, k], c, false, now)] + [Repositioned([j, k], start, 0)]);
      PendingOk(g) && ReadAfter([j, k], g.last, None) == [k] && !PendingOk(Step(g, Read([k], c, false, now)))
  {
    var h := AfterTwoReads(start, j, k, c, now);
    BackToFirst(start, j, k);
    RunAppend(New(start), [Read([j, k], c, false, now)], SetId(j));
    var g := Step(h, SetId(j));
    assert k in [k];
    ReadNewKeepsPendingIff(g, [k], c, now);
  }

  /** SETID to the group's start makes the first entry the last one given, so that the second is read next. */
  lemma BackToFirst(start: Id, j: Id, k: Id)
    requires IdLess(start, j) && IdLess(j, k)
    ensures Repositioned([j, k], start, 0) == SetId(j) && ReadAfter([j, k], j, None) == [k]
  {
    FilterIsSlice([j, k], (x: Id) => IdLess(x, start), 0, 0);
    AfterIsSuffix([j, k], j, 1);
    ReadIsPrefixOfLater([j, k], j, None);
  }

  /** A stream with one id twice, as two additions of it make it: a read of both counts one entry twice. */
  lemma RepeatedIdGoesWrong(start: Id, k: Id, c: Bytes, first: Entry, second: Entry, now: int)
    requires IdLess(start, k) && c != NOBODY
    ensures
      var x := Added(Added(Index([], map[]), k, first), k, second);
      Accepts([k], k) && x.ids == [k, k] && !PendingOk(Run(New(start), [Read(x.ids, c, false, now)]))
  {
    RunOne(New(start), Read([k, k], c, false, now));
    assert [k, k][0] == [k, k][1] && !Distinct([k, k]);
    ReadNewKeepsPendingIff(New(start), [k, k], c, now);
  }

  /**
   XNACK with FORCE lists an entry that nobody was given yet; a read with CLAIM
   takes it, and then the `>` read gives it once more: it is counted twice.
   */
  lemma ForcedEntryGoesWrong(start: Id, k: Id, c: Bytes, mode: NackMode, retry: Option<int>, now: int)
    requires IdLess(start, k) && c != NOBODY
    ensures
      var g := Run(New(start), [Nack(k, true, mode, retry, true)] + [Take(k, c, now)]);
      && PendingOk(g) && g.consumers == map[c := 1] && Owned(g.pel, c) == {k}
      && ReadAfter([k], g.last, None) == [k] && !PendingOk(Step(g, Read([k], c, false, now)))
  {
    var nack, take := Nack(k, true, mode, retry, true), Take(k, c, now);
    RunOne(New(start), nack);
    RunAppend(New(start), [nack], take);
    var h := Step(New(start), nack);
    var g := Step(h, take);
    HarmlessKeepsPending(New(start), nack);
    HarmlessKeepsPending(h, take);
    assert g.consumers == map[c := 1] && g.last == start;
    assert Owned(g.pel, c) == {k};
    AfterIsSuffix([k], start, 0);
    ReadIsPrefixOfLater([k], start, None);
    assert k in [k];
    ReadNewKeepsPendingIff(g, [k], c, now);
  }
}
