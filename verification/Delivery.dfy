/** What one consumer group is given of a stream that grows, shrinks and is read by any of its consumers. */
module Delivery {
  import opened Arithmetic
  import opened Options
  import opened Slices
  import opened Streams

  /**
   The stored ids, the highest id ever added, and the group: where it starts,
   what it was last given, all it was given, and the late ids, which were added
   when they were not above the last one given.
   */
  datatype Feed = Feed(ids: seq<Id>, highest: Option<Id>, start: Id, last: Id, given: seq<Id>, late: set<Id>)

  datatype Event = Append(id: Id) | Remove(i: nat) | TrimFront(n: int) | Read(count: Option<int>)

  /** Ids are added above the last one stored; entries that are removed are there. */
  predicate Proper(f: Feed, e: Event) {
    match e
    case Append(id) => f.ids == [] || IdLess(f.ids[|f.ids| - 1], id)
    case Remove(i) => i < |f.ids|
    case _ => true
  }

  /** Ids are added above every earlier id. */
  predicate IsFresh(f: Feed, e: Event) {
    e.Append? && f.highest.Some? ==> IdLess(f.highest.value, e.id)
  }

  /** The `>` read: the ids after the last one given, cut by the count. */
  function ReadNew(f: Feed, count: Option<int>): Feed {
    var ids := ReadAfter(f.ids, f.last, count);
    f.(given := f.given + ids, last := if ids == [] then f.last else MaxId(f.last, ids[|ids| - 1]))
  }

  function Step(f: Feed, e: Event): Feed
    requires Proper(f, e)
  {
    match e
    case Append(id) =>
      f.(ids := f.ids + [id], highest := Some(if f.highest.None? then id else MaxId(f.highest.value, id)),
         late := if AtMost(id, f.last) then f.late + {id} else f.late)
    case Remove(i) => f.(ids := f.ids[..i] + f.ids[i + 1..])
    case TrimFront(n) => f.(ids := Drop(f.ids, n))
    case Read(count) => ReadNew(f, count)
  }

  ghost predicate Inv(f: Feed) {
    && IsAscending(f.ids) && IsAscending(f.given)
    && (forall k | k in f.ids :: f.highest.Some? && AtMost(k, f.highest.value))
    && AtMost(f.start, f.last)
    && (forall k | k in f.given :: IdLess(f.start, k) && AtMost(k, f.last))
    && (forall k | k in f.ids && IdLess(f.start, k) && AtMost(k, f.last) :: k in f.given || k in f.late)
    && (f.last == f.start || (f.highest.Some? && AtMost(f.last, f.highest.value)))
  }

  /** A group just created: nothing has been given. */
  ghost predicate Initial(f: Feed) {
    && IsAscending(f.ids) && f.given == [] && f.late == {} && f.last == f.start
    && forall k | k in f.ids :: f.highest.Some? && AtMost(k, f.highest.value)
  }

  lemma AppendKeepsInv(f: Feed, id: Id)
    requires Inv(f) && Proper(f, Append(id))
    ensures Inv(Step(f, Append(id)))
  {
    forall i | 0 <= i < |f.ids| ensures IdLess(f.ids[i], id) {
      AscendingAt(f.ids, i, |f.ids| - 1);
    }
  }

  lemma ShrinkKeepsInv(f: Feed, ids: seq<Id>)
    requires Inv(f) && IsAscending(ids) && forall k | k in ids :: k in f.ids
    ensures Inv(f.(ids := ids))
  {
  }

  lemma RemoveKeepsInv(f: Feed, i: nat)
    requires Inv(f) && i < |f.ids|
    ensures Inv(Step(f, Remove(i)))
  {
    var ids := f.ids[..i] + f.ids[i + 1..];
    forall k | k in ids ensures k in f.ids {
      var j :| 0 <= j < |ids| && ids[j] == k;
      assert k == f.ids[if j < i then j else j + 1];
    }
    ShrinkKeepsInv(f, ids);
  }

  lemma ReadKeepsInv(f: Feed, count: Option<int>)
    requires Inv(f)
    ensures Inv(ReadNew(f, count))
  {
    var ids := ReadAfter(f.ids, f.last, count);
    ReadIsAboveLast(f, count);
    if ids != [] {
      SliceKeepsInv(f, ids, FirstAbove(f.ids, f.last));
    }
  }

  lemma ReadIsAboveLast(f: Feed, count: Option<int>)
    requires Inv(f)
    ensures
      var ids, start := ReadAfter(f.ids, f.last, count), FirstAbove(f.ids, f.last);
      && start + |ids| <= |f.ids| && ids == f.ids[start..][..|ids|]
      && (ids != [] ==> IdLess(f.last, ids[|ids| - 1]))
  {
    var ids, start := ReadAfter(f.ids, f.last, count), FirstAbove(f.ids, f.last);
    ReadStartsAbove(f.ids, f.last, count);
    if ids != [] {
      assert f.ids[start..][|ids| - 1] == f.ids[start + |ids| - 1];
    }
  }

  lemma ReadStartsAbove(ids: seq<Id>, key: Id, count: Option<int>)
    requires IsAscending(ids)
    ensures
      var r, start := ReadAfter(ids, key, count), FirstAbove(ids, key);
      start + |r| <= |ids| && r == ids[start..][..|r|]
  {
    AfterIsSuffix(ids, key, FirstAbove(ids, key));
    ReadIsPrefixOfLater(ids, key, count);
  }

  /** Giving the n ids that follow the last one given. */
  lemma SliceKeepsInv(f: Feed, ids: seq<Id>, start: nat)
    requires Inv(f) && ids != [] && start + |ids| <= |f.ids| && ids == f.ids[start..][..|ids|]
    requires forall i | 0 <= i < |f.ids| :: IdLess(f.last, f.ids[i]) <==> start <= i
    ensures Inv(f.(given := f.given + ids, last := ids[|ids| - 1]))
  {
    assert forall i | 0 <= i < |ids| :: ids[i] == f.ids[start + i];
    GivenStaysAscending(f, ids, start);
    var last := ids[|ids| - 1];
    assert last == f.ids[start + |ids| - 1];
    assert last in f.ids;
    forall k | k in f.ids && IdLess(f.start, k) && AtMost(k, last) ensures k in f.given + ids || k in f.late {
      StoredIsGiven(f, ids, start, k);
    }
  }

  lemma StoredIsGiven(f: Feed, ids: seq<Id>, start: nat, k: Id)
    requires Inv(f) && ids != [] && start + |ids| <= |f.ids|
    requires forall i | 0 <= i < |ids| :: ids[i] == f.ids[start + i]
    requires forall i | 0 <= i < |f.ids| :: IdLess(f.last, f.ids[i]) <==> start <= i
    requires k in f.ids && IdLess(f.start, k) && AtMost(k, ids[|ids| - 1])
    ensures k in f.given + ids || k in f.late
  {
    var j :| 0 <= j < |f.ids| && f.ids[j] == k;
    if start <= j {
      AscendingAt(f.ids, start + |ids| - 1, j);
      assert ids[j - start] == k;
    }
  }

  lemma GivenStaysAscending(f: Feed, ids: seq<Id>, start: nat)
    requires Inv(f) && ids != [] && start + |ids| <= |f.ids|
    requires forall i | 0 <= i < |ids| :: ids[i] == f.ids[start + i] && IdLess(f.last, ids[i])
    ensures IsAscending(f.given + ids)
    ensures forall k | k in f.given + ids :: IdLess(f.start, k) && AtMost(k, ids[|ids| - 1])
  {
    var all := f.given + ids;
    forall i, j | 0 <= i < j < |all| ensures IdLess(all[i], all[j]) {
      if i < |f.given| <= j {
        assert f.given[i] in f.given;
      }
    }
    forall k | k in all ensures IdLess(f.start, k) && AtMost(k, ids[|ids| - 1]) {
      var i :| 0 <= i < |all| && all[i] == k;
      if i < |all| - 1 {
        assert IdLess(all[i], all[|all| - 1]);
      }
      if i >= |f.given| {
        assert k == ids[i - |f.given|];
      }
    }
  }

  lemma StepKeepsInv(f: Feed, e: Event)
    requires Inv(f) && Proper(f, e)
    ensures Inv(Step(f, e))
  {
    match e
    case Append(id) => AppendKeepsInv(f, id);
    case Remove(i) => RemoveKeepsInv(f, i);
    case TrimFront(n) => ShrinkKeepsInv(f, Drop(f.ids, n));
    case Read(count) => ReadKeepsInv(f, count);
  }

  ghost predicate AllProper(f: Feed, es: seq<Event>)
    decreases |es|
  {
    es != [] ==> Proper(f, es[0]) && AllProper(Step(f, es[0]), es[1..])
  }

  ghost function Run(f: Feed, es: seq<Event>): Feed
    requires AllProper(f, es)
    decreases |es|
  {
    if es == [] then f else Run(Step(f, es[0]), es[1..])
  }

  lemma RunFirst(f: Feed, e: Event, rest: seq<Event>)
    requires Proper(f, e) && AllProper(Step(f, e), rest)
    ensures AllProper(f, [e] + rest) && Run(f, [e] + rest) == Run(Step(f, e), rest)
  {
    assert ([e] + rest)[1..] == rest;
  }

  lemma {:induction false} RunKeepsInv(f: Feed, es: seq<Event>)
    requires Inv(f) && AllProper(f, es)
    ensures Inv(Run(f, es)) && Run(f, es).start == f.start && f.given <= Run(f, es).given
    decreases |es|
  {
    if es != [] {
      StepKeepsInv(f, es[0]);
      RunKeepsInv(Step(f, es[0]), es[1..]);
    }
  }

  lemma {:induction false} AscendingCount(s: seq<Id>, k: Id)
    requires IsAscending(s)
    ensures multiset(s)[k] == if k in s then 1 else 0
  {
    if s != [] {
      var init, last := s[..|s| - 1], s[|s| - 1];
      AscendingCount(init, k);
      assert s == init + [last];
      forall i | 0 <= i < |init| ensures init[i] != last {
        AscendingAt(s, i, |s| - 1);
      }
    }
  }

  /**
   Over any run, the ids given to a group are strictly increasing, and every id
   that is still stored between the group's start and the last id given has
   been given exactly once, unless it was late.
   */
  lemma DeliveredOnceUnlessLate(f: Feed, es: seq<Event>)
    requires Initial(f) && AllProper(f, es)
    ensures IsAscending(Run(f, es).given)
    ensures
      var g := Run(f, es);
      forall k | k in g.ids && IdLess(g.start, k) && AtMost(k, g.last) && k !in g.late :: multiset(g.given)[k] == 1
  {
    RunKeepsInv(f, es);
    var g := Run(f, es);
    forall k | k in g.ids && IdLess(g.start, k) && AtMost(k, g.last) && k !in g.late ensures multiset(g.given)[k] == 1 {
      AscendingCount(g.given, k);
    }
  }

  ghost predicate AllFresh(f: Feed, es: seq<Event>)
    requires AllProper(f, es)
    decreases |es|
  {
    es != [] ==> IsFresh(f, es[0]) && AllFresh(Step(f, es[0]), es[1..])
  }

  /** An id above every earlier one is late only if the group starts above it. */
  lemma {:induction false} FreshIdsAreNotLate(f: Feed, es: seq<Event>)
    requires Inv(f) && AllProper(f, es) && AllFresh(f, es) && forall k | k in f.late :: AtMost(k, f.start)
    ensures forall k | k in Run(f, es).late :: AtMost(k, f.start)
    decreases |es|
  {
    if es != [] {
      StepKeepsInv(f, es[0]);
      FreshIdsAreNotLate(Step(f, es[0]), es[1..]);
    }
  }

  /** Over any run in which ids are added above every earlier one, none is missed. */
  lemma DeliveredExactlyOnce(f: Feed, es: seq<Event>)
    requires Initial(f) && AllProper(f, es) && AllFresh(f, es)
    ensures IsAscending(Run(f, es).given)
    ensures
      var g := Run(f, es);
      forall k | k in g.ids && IdLess(g.start, k) && AtMost(k, g.last) :: multiset(g.given)[k] == 1
  {
    DeliveredOnceUnlessLate(f, es);
    FreshIdsAreNotLate(f, es);
    RunKeepsInv(f, es);
  }

  // ---------- late ids ----------

  /** Whatever a run gives anew is above what was given last before it. */
  lemma {:induction false} NewlyGivenIsAbove(f: Feed, es: seq<Event>, k: Id)
    requires Inv(f) && AllProper(f, es) && k in Run(f, es).given
    ensures k in f.given || IdLess(f.last, k)
    decreases |es|
  {
    if es != [] {
      var g := Step(f, es[0]);
      StepKeepsInv(f, es[0]);
      NewlyGivenIsAbove(g, es[1..], k);
      if es[0].Read? {
        ReadGivesAbove(f, es[0].count, k);
      }
    }
  }

  lemma ReadGivesAbove(f: Feed, count: Option<int>, k: Id)
    requires Inv(f)
    ensures AtMost(f.last, ReadNew(f, count).last)
    ensures k in ReadNew(f, count).given ==> k in f.given || IdLess(f.last, k)
  {
    ReadIsPrefixOfLater(f.ids, f.last, count);
    var ids, later := ReadAfter(f.ids, f.last, count), Later(f.ids, f.last);
    assert forall i | 0 <= i < |ids| :: ids[i] == later[i] && ids[i] in later;
  }

  /** A complete read gives every stored id above the last one given. */
  lemma ReadGivesAll(f: Feed, k: Id)
    requires Inv(f) && k in f.ids && IdLess(f.last, k)
    ensures k in ReadNew(f, None).given
  {
    ReadIsPrefixOfLater(f.ids, f.last, None);
    assert k in Later(f.ids, f.last);
  }

  /**
   An id that XADD accepts, and that was not given before, will be given by
   some later run if and only if it is above the last one given. XADD compares
   it only with the last one stored.
   */
  lemma AddedIdIsGivenIff(f: Feed, id: Id)
    requires Inv(f) && Proper(f, Append(id)) && id !in f.given
    ensures
      var g := Step(f, Append(id));
      (exists es :: AllProper(g, es) && id in Run(g, es).given) <==> IdLess(f.last, id)
    ensures id in Step(Step(f, Append(id)), Read(None)).given <==> IdLess(f.last, id)
  {
    var g := Step(f, Append(id));
    AppendKeepsInv(f, id);
    if IdLess(f.last, id) {
      ReadGivesAll(g, id);
      RunFirst(g, Read(None), []);
      assert id in Run(g, [Read(None)] + []).given;
    }
    ReadGivesAbove(g, None, id);
    forall es | AllProper(g, es) && id in Run(g, es).given ensures IdLess(f.last, id) {
      NewlyGivenIsAbove(g, es, id);
    }
  }

  lemma RunOfFour(f: Feed, a: Event, b: Event, c: Event, d: Event)
    requires Proper(f, a) && Proper(Step(f, a), b)
    requires var g := Step(Step(f, a), b); Proper(g, c) && Proper(Step(g, c), d)
    ensures AllProper(f, [a, b, c, d]) && Run(f, [a, b, c, d]) == Step(Step(Step(Step(f, a), b), c), d)
  {
    var f1, f2, f3 := Step(f, a), Step(Step(f, a), b), Step(Step(Step(f, a), b), c);
    RunFirst(f3, d, []);
    RunFirst(f2, c, [d] + []);
    RunFirst(f1, b, [c] + ([d] + []));
    RunFirst(f, a, [b] + ([c] + ([d] + [])));
    assert [a, b, c, d] == [a] + ([b] + ([c] + ([d] + [])));
  }

  /** The group reads an entry, the entry is deleted, an older id is added: it is stored, and nobody will be given it. */
  lemma LateIdIsMissed(start: Id, older: Id, newer: Id, es: seq<Event>)
    requires IdLess(start, older) && IdLess(older, newer)
    ensures
      var f := Feed([], None, start, start, [], {});
      var run := [Append(newer), Read(None), Remove(0), Append(older)];
      Initial(f) && AllProper(f, run) &&
      var g := Run(f, run);
      older in g.ids && IdLess(g.start, older) && (AllProper(g, es) ==> older !in Run(g, es).given)
  {
    var f := Feed([], None, start, start, [], {});
    var f1, f2, f3, g := LateRun(start, older, newer);
    RunOfFour(f, Append(newer), Read(None), Remove(0), Append(older));
    if AllProper(g, es) && older in Run(g, es).given {
      NewlyGivenIsAbove(g, es, older);
    }
  }

  lemma LateRun(start: Id, older: Id, newer: Id) returns (f1: Feed, f2: Feed, f3: Feed, g: Feed)
    requires IdLess(start, older) && IdLess(older, newer)
    ensures f1 == Step(Feed([], None, start, start, [], {}), Append(newer))
    ensures f2 == Step(f1, Read(None)) && |f2.ids| == 1
    ensures f3 == Step(f2, Remove(0)) && f3.ids == []
    ensures g == Step(f3, Append(older)) && Inv(g) && g.ids == [older] && g.start == start
    ensures g.last == newer && g.given == [newer]
  {
    f1 := Feed([newer], Some(newer), start, start, [], {});
    assert Later([newer], start) == [newer];
    f2 := Step(f1, Read(None));
    f3 := Step(f2, Remove(0));
    g := Step(f3, Append(older));
  }
}
