/**
 Deleting entries that consumer groups refer to: XDELEX and XACKDEL, with the
 references kept, dropped, or required to be gone.
 */
module Deletions {
  import opened Bytes
  import opened GroupRuns
  import opened Groups
  import opened Options
  import opened Streams

  datatype DeleteMode = KeepRef | DelRef | Acked

  // ---------- specification ----------

  /** A stream's index and its groups. */
  datatype Store = Store(index: Index, groups: seq<Group>)

  /** The entry an argument denotes, if it is stored. */
  function Denoted(ids: seq<Id>, arg: IdArg): Option<Id> {
    match arg
    case Malformed => None
    case Dollar => if ids == [] then None else Some(ids[|ids| - 1])
    case Key(id) => if id in ids then Some(id) else None
  }

  /** What a command answers at once when the argument denotes no stored entry. */
  function Misses(ids: seq<Id>, arg: IdArg): (r: Option<Outcome>)
    ensures r.None? <==> Denoted(ids, arg).Some?
  {
    match arg
    case Malformed => Some(Failed(InvalidId))
    case Dollar => if ids == [] then Some(Failed(IndexError)) else None
    case Key(id) => if id in ids then None else Some(Done(-1))
  }

  predicate Refers(groups: seq<Group>, k: Id) {
    exists i | 0 <= i < |groups| :: k in groups[i].pel
  }

  function AllDereferenced(groups: seq<Group>, k: Id): (r: seq<Group>)
    ensures |r| == |groups| && forall i | 0 <= i < |groups| :: r[i] == Dereferenced(groups[i], k)
  {
    if groups == [] then [] else AllDereferenced(groups[..|groups| - 1], k) + [Dereferenced(groups[|groups| - 1], k)]
  }

  /** A stored entry goes, with its references when the mode says so. */
  function Dropped(s: Store, k: Id, mode: DeleteMode): Store
    requires k in s.index.ids
  {
    Store(RemovedAt(s.index, PositionOf(s.index.ids, k)), if mode == DelRef then AllDereferenced(s.groups, k) else s.groups)
  }

  /** In ACKED mode an entry that a group refers to stays. */
  function KeptOrDropped(s: Store, k: Id, mode: DeleteMode): (Store, Outcome)
    requires k in s.index.ids
  {
    if mode == Acked && Refers(s.groups, k) then (s, Done(2)) else (Dropped(s, k, mode), Done(1))
  }

  /** XDELEX of one id: -1 not found, 2 kept because a group refers to it, 1 deleted. */
  function DeletedEx(s: Store, arg: IdArg, mode: DeleteMode): (Store, Outcome) {
    var miss := Misses(s.index.ids, arg);
    if miss.Some? then (s, miss.value) else KeptOrDropped(s, Denoted(s.index.ids, arg).value, mode)
  }

  /** XDELEX: the ids in order, up to the first that raises. */
  function DeletedAllEx(s: Store, args: seq<IdArg>, mode: DeleteMode): (Store, seq<int>, Option<Failure>) {
    if args == [] then (s, [], None)
    else
      var (t, results, failure) := DeletedAllEx(s, args[..|args| - 1], mode);
      if failure.Some? then (t, results, failure)
      else
        var (u, one) := DeletedEx(t, args[|args| - 1], mode);
        if one.Failed? then (u, results, Some(one.why)) else (u, results + [one.n], None)
  }

  /** XACK of the argument in one group: $ is no id there, so nothing is acknowledged. */
  function AckedIn(g: Group, arg: IdArg): (Group, Option<int>) {
    var (h, n) := AckAll(g, if arg.Key? then [arg.id] else []);
    (if n.None? then h else WithOwners(h), n)
  }

  /**
   XACKDEL of one id in the j-th group: -1 not stored or not pending there, 2
   kept because a group still refers to it, 1 deleted.
   */
  function AckDeleted(s: Store, j: nat, arg: IdArg, mode: DeleteMode): (Store, Outcome)
    requires j < |s.groups|
  {
    var miss := Misses(s.index.ids, arg);
    if miss.Some? then (s, miss.value)
    else
      var k := Denoted(s.index.ids, arg).value;
      if k !in s.groups[j].pel then (s, Done(-1)) else AckDeletedPending(s, j, arg, k, mode)
  }

  function AckDeletedPending(s: Store, j: nat, arg: IdArg, k: Id, mode: DeleteMode): (Store, Outcome)
    requires j < |s.groups| && k in s.index.ids
  {
    var (h, n) := AckedIn(s.groups[j], arg);
    var t := s.(groups := s.groups[j := h]);
    if n.None? then (t, Failed(KeyError)) else KeptOrDropped(t, k, mode)
  }

  // ---------- what the operations mean ----------

  /** XACKDEL: the ids in order, up to the first that raises. */
  function AckDeletedAll(s: Store, j: nat, args: seq<IdArg>, mode: DeleteMode): (r: (Store, seq<int>, Option<Failure>))
    requires j < |s.groups|
    ensures |r.0.groups| == |s.groups|
  {
    if args == [] then (s, [], None)
    else
      var (t, results, failure) := AckDeletedAll(s, j, args[..|args| - 1], mode);
      if failure.Some? then (t, results, failure)
      else
        var (u, one) := AckDeleted(t, j, args[|args| - 1], mode);
        if one.Failed? then (u, results, Some(one.why)) else (u, results + [one.n], None)
  }

  ghost predicate CountersOk(s: Store) {
    forall i | 0 <= i < |s.groups| :: PendingOk(s.groups[i])
  }

  /** The index is in order, and counters that were right still are. */
  ghost predicate IsKept(s: Store, t: Store) {
    IndexOk(t.index) && |t.groups| == |s.groups| && (CountersOk(s) ==> CountersOk(t))
  }

  lemma DroppedIsRight(s: Store, k: Id, mode: DeleteMode)
    requires IndexOk(s.index) && k in s.index.ids
    ensures IsKept(s, Dropped(s, k, mode))
    ensures forall id :: id in Dropped(s, k, mode).index.ids <==> id in s.index.ids && id != k
    ensures mode == DelRef ==> !Refers(Dropped(s, k, mode).groups, k)
    ensures mode != DelRef ==> Dropped(s, k, mode).groups == s.groups
  {
    RemoveKeepsIndex(s.index, PositionOf(s.index.ids, k));
    forall i | 0 <= i < |s.groups| && PendingOk(s.groups[i]) ensures PendingOk(Dereferenced(s.groups[i], k)) {
      DereferencedKeepsPending(s.groups[i], k);
    }
  }

  /**
   XDELEX of one id: 1 means that exactly this entry is gone, in DELREF mode
   with every reference to it; any other answer, that nothing has changed.
   */
  lemma DeletedExIsRight(s: Store, arg: IdArg, mode: DeleteMode)
    requires IndexOk(s.index)
    ensures
      var (t, r) := DeletedEx(s, arg, mode);
      var k := Denoted(s.index.ids, arg);
      && IsKept(s, t)
      && (r != Done(1) ==> t == s)
      && (r == Done(1) ==> k.Some? && forall id :: id in t.index.ids <==> id in s.index.ids && id != k.value)
      && (r == Done(1) && mode == DelRef ==> !Refers(t.groups, k.value))
      && (r == Done(1) && mode == Acked ==> !Refers(s.groups, k.value))
  {
    var k := Denoted(s.index.ids, arg);
    if k.Some? {
      DroppedIsRight(s, k.value, mode);
    }
  }

  /**
   Which answer it is: text that is no id raises, and so does $ when there is no
   entry; -1 for an id that is not there; 2 in ACKED mode as long as some group
   has the entry pending; and 1 otherwise.
   */
  lemma DeletedExAnswers(s: Store, arg: IdArg, mode: DeleteMode)
    ensures
      var ids, r := s.index.ids, DeletedEx(s, arg, mode).1;
      if arg.Malformed? then r == Failed(InvalidId)
      else if arg.Dollar? && ids == [] then r == Failed(IndexError)
      else if arg.Key? && arg.id !in ids then r == Done(-1)
      else
        var k := if arg.Dollar? then ids[|ids| - 1] else arg.id;
        r == Done(if mode == Acked && exists i | 0 <= i < |s.groups| :: k in s.groups[i].pel then 2 else 1)
  {
  }

  /** The answers to XACKDEL of an entry that is not stored, or not pending in the group. */
  lemma AckDeletedAnswers(s: Store, j: nat, arg: IdArg, mode: DeleteMode)
    requires j < |s.groups|
    ensures
      var ids, r := s.index.ids, AckDeleted(s, j, arg, mode).1;
      && (arg.Malformed? <==> r == Failed(InvalidId))
      && (arg.Dollar? && ids == [] <==> r == Failed(IndexError))
      && (r == Done(-1) <==>
            || (arg.Key? && (arg.id !in ids || arg.id !in s.groups[j].pel))
            || (arg.Dollar? && ids != [] && ids[|ids| - 1] !in s.groups[j].pel))
  {
  }

  lemma {:induction false} DeletedAllExIsRight(s: Store, args: seq<IdArg>, mode: DeleteMode)
    requires IndexOk(s.index)
    ensures
      var (t, results, failure) := DeletedAllEx(s, args, mode);
      && IsKept(s, t) && (forall id | id in t.index.ids :: id in s.index.ids)
      && (failure.None? ==> |results| == |args|)
  {
    if args != [] {
      var init := args[..|args| - 1];
      DeletedAllExIsRight(s, init, mode);
      DeletedExIsRight(DeletedAllEx(s, init, mode).0, args[|args| - 1], mode);
    }
  }

  /** The id is among the arguments and got one of the answers. */
  ghost predicate IsAnswered(args: seq<IdArg>, results: seq<int>, id: Id, answers: set<int>)
    requires |results| <= |args|
  {
    exists i | 0 <= i < |results| :: args[i] == Key(id) && results[i] in answers
  }

  lemma AnsweredAppend(args: seq<IdArg>, results: seq<int>, arg: IdArg, n: int, id: Id, answers: set<int>)
    requires |results| == |args|
    ensures IsAnswered(args + [arg], results + [n], id, answers) <==>
            IsAnswered(args, results, id, answers) || (arg == Key(id) && n in answers)
  {
    var more, all := args + [arg], results + [n];
    if i :| 0 <= i < |results| && args[i] == Key(id) && results[i] in answers {
      assert more[i] == Key(id) && all[i] in answers;
    }
    assert more[|args|] == arg && all[|args|] == n;
  }

  /** Arguments that were not reached do not matter. */
  lemma AnsweredBefore(args: seq<IdArg>, results: seq<int>, arg: IdArg, id: Id, answers: set<int>)
    requires |results| <= |args|
    ensures IsAnswered(args + [arg], results, id, answers) <==> IsAnswered(args, results, id, answers)
  {
    var more := args + [arg];
    assert forall i | 0 <= i < |results| :: more[i] == args[i];
  }

  lemma OneIsGone(s: Store, k: Id, mode: DeleteMode, id: Id)
    requires IndexOk(s.index)
    ensures
      var (t, r) := DeletedEx(s, Key(k), mode);
      r.Done? && IndexOk(t.index) && (id in t.index.ids <==> id in s.index.ids && !(k == id && r.n == 1))
  {
    DeletedExIsRight(s, Key(k), mode);
  }

  /** Of ids that are written out, exactly those answered with 1 are gone. */
  lemma {:induction false} DeletedAllExRemovesExactly(s: Store, args: seq<IdArg>, mode: DeleteMode, id: Id)
    requires IndexOk(s.index) && id in s.index.ids && forall i | 0 <= i < |args| :: args[i].Key?
    ensures
      var (t, results, failure) := DeletedAllEx(s, args, mode);
      && failure.None? && |results| == |args| && IndexOk(t.index)
      && (id !in t.index.ids <==> IsAnswered(args, results, id, {1}))
  {
    if args != [] {
      var init, last := args[..|args| - 1], args[|args| - 1];
      DeletedAllExRemovesExactly(s, init, mode, id);
      var (t, results, _) := DeletedAllEx(s, init, mode);
      OneIsGone(t, last.id, mode, id);
      assert args == init + [last];
      AnsweredAppend(init, results, last, DeletedEx(t, last, mode).1.n, id, {1});
    }
  }

  lemma DeletedAllExStep(s: Store, args: seq<IdArg>, mode: DeleteMode, i: nat)
    requires i < |args|
    ensures
      var (t, results, failure) := DeletedAllEx(s, args[..i], mode);
      failure.None? ==>
        var (u, one) := DeletedEx(t, args[i], mode);
        DeletedAllEx(s, args[..i + 1], mode) ==
          if one.Failed? then (u, results, Some(one.why)) else (u, results + [one.n], None)
  {
    assert args[..i + 1][..i] == args[..i];
  }

  lemma {:induction false} DeletedAllExStops(s: Store, args: seq<IdArg>, mode: DeleteMode, i: nat)
    requires i <= |args| && DeletedAllEx(s, args[..i], mode).2.Some?
    ensures DeletedAllEx(s, args, mode) == DeletedAllEx(s, args[..i], mode)
  {
    if i == |args| {
      assert args[..i] == args;
    } else {
      assert args[..|args| - 1][..i] == args[..i];
      DeletedAllExStops(s, args[..|args| - 1], mode, i);
    }
  }

  lemma AckedInIsRight(g: Group, arg: IdArg)
    ensures
      var (h, n) := AckedIn(g, arg);
      && (PendingOk(g) ==> PendingOk(h))
      && (n.Some? ==> h.pel == if arg.Key? then g.pel - {arg.id} else g.pel)
      && (n.None? ==> h == g)
      && (n.None? <==> arg.Key? && AckOne(g, arg.id).None?)
  {
    var ids := if arg.Key? then [arg.id] else [];
    assert ids != [] ==> ids[..0] == [];
    assert AckAll(g, []) == (g, Some(0));
    if PendingOk(g) {
      AckAllKeepsPending(g, ids);
      WithOwnersKeepsPending(AckAll(g, ids).0);
    }
  }

  /** What is said of an answer to XACKDEL of the stored entry k, pending in the j-th group. */
  ghost predicate AckDeleteIsRight(s: Store, t: Store, r: Outcome, j: nat, written: bool, k: Id, mode: DeleteMode)
    requires j < |s.groups|
  {
    && IsKept(s, t) && r in {Done(1), Done(2), Failed(KeyError)}
    && (r == Done(1) ==> forall id :: id in t.index.ids <==> id in s.index.ids && id != k)
    && (r != Done(1) ==> t.index == s.index)
    && (r == Done(1) && mode == DelRef ==> !Refers(t.groups, k))
    && (r == Done(1) && mode == KeepRef ==> (k !in t.groups[j].pel <==> written))
    && (r == Done(1) && mode == Acked ==> !Refers(t.groups, k))
    && (r == Done(2) ==> mode == Acked && Refers(t.groups, k) && (k !in t.groups[j].pel <==> written))
    && (mode != DelRef ==> forall i | 0 <= i < |s.groups| && i != j :: t.groups[i] == s.groups[i])
    && (r == Failed(KeyError) <==> written && AckOne(s.groups[j], k).None?)
    && (r == Failed(KeyError) ==> t == s)
  }

  lemma AckDeletedPendingIsRight(s: Store, j: nat, arg: IdArg, k: Id, mode: DeleteMode)
    requires IndexOk(s.index) && j < |s.groups| && Denoted(s.index.ids, arg) == Some(k) && k in s.groups[j].pel
    ensures var (t, r) := AckDeletedPending(s, j, arg, k, mode);
      AckDeleteIsRight(s, t, r, j, arg.Key?, k, mode)
  {
    AckedInIsRight(s.groups[j], arg);
    var (h, n) := AckedIn(s.groups[j], arg);
    var t := s.(groups := s.groups[j := h]);
    if n.None? {
      assert t.groups == s.groups;
    } else if !(mode == Acked && Refers(t.groups, k)) {
      AckDroppedIsRight(s, j, arg.Key?, h, k, mode);
    }
  }

  lemma AckDroppedIsRight(s: Store, j: nat, written: bool, h: Group, k: Id, mode: DeleteMode)
    requires IndexOk(s.index) && j < |s.groups| && k in s.index.ids
    requires (PendingOk(s.groups[j]) ==> PendingOk(h)) && (k !in h.pel <==> written)
    requires !(written && AckOne(s.groups[j], k).None?) && (mode == Acked ==> !Refers(s.groups[j := h], k))
    ensures var t := Dropped(s.(groups := s.groups[j := h]), k, mode);
      AckDeleteIsRight(s, t, Done(1), j, written, k, mode)
  {
    DroppedIsRight(s.(groups := s.groups[j := h]), k, mode);
  }

  /**
   XACKDEL of one id keeps the counters right in every group. 1 means that
   exactly this entry is gone from the stream, and in DELREF mode from every
   group; it was acknowledged in its group only if it was written out, since $
   is no id to acknowledge. 2 leaves it stored. -1 changes nothing.
   */
  lemma AckDeletedIsRight(s: Store, j: nat, arg: IdArg, mode: DeleteMode)
    requires IndexOk(s.index) && j < |s.groups|
    ensures
      var (t, r) := AckDeleted(s, j, arg, mode);
      var k := Denoted(s.index.ids, arg);
      if k.Some? && k.value in s.groups[j].pel then AckDeleteIsRight(s, t, r, j, arg.Key?, k.value, mode)
      else t == s && (r == Done(-1) || Misses(s.index.ids, arg) == Some(r))
  {
    var k := Denoted(s.index.ids, arg);
    if k.Some? && k.value in s.groups[j].pel {
      AckDeletedPendingIsRight(s, j, arg, k.value, mode);
    }
  }

  // ---------- the objects ----------

  /** A run: the only entry is read, then XACKDEL with $ and KEEPREF deletes it and leaves it pending. */
  lemma DollarIsNotAcknowledged(start: Id, k: Id, fields: Entry, c: Bytes, now: int)
    requires IdLess(start, k)
    ensures
      var g := Run(New(start), [Read([k], c, false, now)]);
      var s := Store(Added(Index([], map[]), k, fields), [g]);
      var (t, r) := AckDeleted(s, 0, Dollar, KeepRef);
      r == Done(1) && k !in t.index.ids && k in t.groups[0].pel
  {
    var g := AfterOneRead(start, k, c, now);
    var s := Store(Added(Index([], map[]), k, fields), [g]);
    AddKeepsIndexIff(Index([], map[]), k, fields);
    AckDeletedIsRight(s, 0, Dollar, KeepRef);
    assert s.index.ids == [k] && Denoted(s.index.ids, Dollar) == Some(k);
    assert AckedIn(g, Dollar).1.Some?;
  }

  lemma {:induction false} AckDeletedAllIsRight(s: Store, j: nat, args: seq<IdArg>, mode: DeleteMode)
    requires IndexOk(s.index) && j < |s.groups|
    ensures
      var (t, results, failure) := AckDeletedAll(s, j, args, mode);
      && IsKept(s, t) && (forall id | id in t.index.ids :: id in s.index.ids)
      && (failure.None? ==> |results| == |args|)
  {
    if args != [] {
      var init := args[..|args| - 1];
      AckDeletedAllIsRight(s, j, init, mode);
      AckDeletedIsRight(AckDeletedAll(s, j, init, mode).0, j, args[|args| - 1], mode);
    }
  }

  /** One id that is written out: what it does to an id in the stream and in the group's list. */
  lemma OneIsAcked(s: Store, j: nat, k: Id, mode: DeleteMode, id: Id)
    requires IndexOk(s.index) && j < |s.groups|
    ensures
      var (t, r) := AckDeleted(s, j, Key(k), mode);
      && IndexOk(t.index)
      && (id in t.index.ids <==> id in s.index.ids && !(k == id && r == Done(1)))
      && (id in t.groups[j].pel <==> id in s.groups[j].pel && !(k == id && r in {Done(1), Done(2)}))
      && (r.Failed? ==> t == s)
  {
    AckDeletedIsRight(s, j, Key(k), mode);
    if k in s.index.ids && k in s.groups[j].pel {
      AckedInIsRight(s.groups[j], Key(k));
      var (h, n) := AckedIn(s.groups[j], Key(k));
      assert s.(groups := s.groups[j := h]).groups[j] == h;
      if n.Some? && !(mode == Acked && Refers(s.groups[j := h], k)) {
        DroppedIsRight(s.(groups := s.groups[j := h]), k, mode);
      }
    }
  }

  /**
   Of ids that are written out, exactly those answered with 1 are gone from the
   stream, and exactly those answered with 1 or 2 from the group's list; the
   answers end where an acknowledgement raises.
   */
  lemma {:induction false} AckDeletedAllRemovesExactly(s: Store, j: nat, args: seq<IdArg>, mode: DeleteMode, id: Id)
    requires IndexOk(s.index) && j < |s.groups| && forall i | 0 <= i < |args| :: args[i].Key?
    ensures
      var (t, results, failure) := AckDeletedAll(s, j, args, mode);
      && IndexOk(t.index) && |results| <= |args| && (failure.None? <==> |results| == |args|)
      && (id in t.index.ids <==> id in s.index.ids && !IsAnswered(args, results, id, {1}))
      && (id in t.groups[j].pel <==> id in s.groups[j].pel && !IsAnswered(args, results, id, {1, 2}))
  {
    if args != [] {
      var init, last := args[..|args| - 1], args[|args| - 1];
      AckDeletedAllRemovesExactly(s, j, init, mode, id);
      var (t, results, failure) := AckDeletedAll(s, j, init, mode);
      assert args == init + [last];
      forall answers: set<int> {
        AnsweredBefore(init, results, last, id, answers);
      }
      if failure.None? {
        OneIsAcked(t, j, last.id, mode, id);
        var one := AckDeleted(t, j, last, mode).1;
        if one.Done? {
          AnsweredAppend(init, results, last, one.n, id, {1});
          AnsweredAppend(init, results, last, one.n, id, {1, 2});
        }
      }
    }
  }

  lemma AckDeletedAllStep(s: Store, j: nat, args: seq<IdArg>, mode: DeleteMode, i: nat)
    requires j < |s.groups| && i < |args|
    ensures
      var (t, results, failure) := AckDeletedAll(s, j, args[..i], mode);
      failure.None? ==>
        var (u, one) := AckDeleted(t, j, args[i], mode);
        AckDeletedAll(s, j, args[..i + 1], mode) ==
          if one.Failed? then (u, results, Some(one.why)) else (u, results + [one.n], None)
  {
    assert args[..i + 1][..i] == args[..i];
  }

  lemma {:induction false} AckDeletedAllStops(s: Store, j: nat, args: seq<IdArg>, mode: DeleteMode, i: nat)
    requires j < |s.groups| && i <= |args| && AckDeletedAll(s, j, args[..i], mode).2.Some?
    ensures AckDeletedAll(s, j, args, mode) == AckDeletedAll(s, j, args[..i], mode)
  {
    if i == |args| {
      assert args[..i] == args;
    } else {
      assert args[..|args| - 1][..i] == args[..i];
      AckDeletedAllStops(s, j, args[..|args| - 1], mode, i);
    }
  }

  ghost predicate DistinctGroups(stream: XStream, groups: seq<StreamGroup>) {
    && (forall i, j | 0 <= i < j < |groups| :: groups[i] != groups[j])
    && (forall i | 0 <= i < |groups| :: groups[i].stream == stream)
  }

  ghost function StatesOf(groups: seq<StreamGroup>): (r: seq<Group>)
    reads groups
    ensures |r| == |groups| && forall i | 0 <= i < |groups| :: r[i] == groups[i].Abs()
  {
    if groups == [] then [] else StatesOf(groups[..|groups| - 1]) + [groups[|groups| - 1].Abs()]
  }

  ghost function StoreOf(stream: XStream, groups: seq<StreamGroup>): Store
    reads stream, groups
  {
    Store(stream.Abs(), StatesOf(groups))
  }

  method IsReferenced(groups: seq<StreamGroup>, k: Id) returns (b: bool)
    ensures b <==> Refers(StatesOf(groups), k)
  {
    for i := 0 to |groups|
      invariant forall j | 0 <= j < i :: k !in groups[j].pel
    {
      if k in groups[i].pel {
        assert k in StatesOf(groups)[i].pel;
        return true;
      }
    }
    return false;
  }

  method DropReferences(stream: XStream, groups: seq<StreamGroup>, k: Id)
    requires DistinctGroups(stream, groups)
    modifies groups
    ensures StatesOf(groups) == AllDereferenced(old(StatesOf(groups)), k)
  {
    for i := 0 to |groups|
      invariant forall j | 0 <= j < i :: groups[j].Abs() == Dereferenced(old(groups[j].Abs()), k)
      invariant forall j | i <= j < |groups| :: groups[j].Abs() == old(groups[j].Abs())
    {
      groups[i].DropReference(k);
    }
  }

  /** The deletion of a stored entry, with its references in DELREF mode. */
  method DeleteStored(stream: XStream, groups: seq<StreamGroup>, ind: nat, mode: DeleteMode)
    requires stream.Valid() && DistinctGroups(stream, groups) && ind < |stream.ids|
    modifies stream, groups
    ensures stream.Valid()
    ensures StoreOf(stream, groups) == Dropped(old(StoreOf(stream, groups)), old(stream.ids[ind]), mode)
    ensures NotesDeleted(old(stream.ids), stream.ids, old(stream.maxDeleted), stream.maxDeleted)
  {
    var k := stream.ids[ind];
    PositionIsUnique(stream.ids, k, ind);
    RemoveKeepsIndex(stream.Abs(), ind);
    stream.RemoveAt(ind);
    assert StatesOf(groups) == old(StatesOf(groups));
    if mode == DelRef {
      DropReferences(stream, groups, k);
    }
  }

  method KeepOrDelete(stream: XStream, groups: seq<StreamGroup>, ind: nat, mode: DeleteMode) returns (r: Outcome)
    requires stream.Valid() && DistinctGroups(stream, groups) && ind < |stream.ids|
    modifies stream, groups
    ensures stream.Valid()
    ensures (StoreOf(stream, groups), r) == KeptOrDropped(old(StoreOf(stream, groups)), old(stream.ids[ind]), mode)
    ensures NotesDeleted(old(stream.ids), stream.ids, old(stream.maxDeleted), stream.maxDeleted)
  {
    var referenced := IsReferenced(groups, stream.ids[ind]);
    if mode == Acked && referenced {
      return Done(2);
    }
    DeleteStored(stream, groups, ind, mode);
    return Done(1);
  }

  method Locate(stream: XStream, arg: IdArg) returns (ind: nat, miss: Option<Outcome>)
    requires stream.Valid()
    ensures miss == Misses(stream.ids, arg)
    ensures miss.None? ==> ind < |stream.ids| && Denoted(stream.ids, arg) == Some(stream.ids[ind])
  {
    if arg.Malformed? {
      return 0, Some(Failed(InvalidId));
    }
    var found;
    ind, found := stream.FindArg(arg);
    miss := if !found then Some(Done(-1)) else if ind >= |stream.ids| then Some(Failed(IndexError)) else None;
  }

  method DeleteExOne(stream: XStream, groups: seq<StreamGroup>, arg: IdArg, mode: DeleteMode) returns (r: Outcome)
    requires stream.Valid() && DistinctGroups(stream, groups)
    modifies stream, groups
    ensures stream.Valid()
    ensures (StoreOf(stream, groups), r) == DeletedEx(old(StoreOf(stream, groups)), arg, mode)
    ensures NotesDeleted(old(stream.ids), stream.ids, old(stream.maxDeleted), stream.maxDeleted)
  {
    var ind, miss := Locate(stream, arg);
    if miss.Some? {
      return miss.value;
    }
    r := KeepOrDelete(stream, groups, ind, mode);
  }

  /** XDELEX. */
  method DeleteEx(stream: XStream, groups: seq<StreamGroup>, args: seq<IdArg>, mode: DeleteMode)
    returns (results: seq<int>, failure: Option<Failure>)
    requires stream.Valid() && DistinctGroups(stream, groups)
    modifies stream, groups
    ensures stream.Valid()
    ensures (StoreOf(stream, groups), results, failure) == DeletedAllEx(old(StoreOf(stream, groups)), args, mode)
    ensures NotesDeleted(old(stream.ids), stream.ids, old(stream.maxDeleted), stream.maxDeleted)
  {
    results, failure := [], None;
    ghost var start := StoreOf(stream, groups);
    for i := 0 to |args|
      invariant stream.Valid() && failure.None?
      invariant (StoreOf(stream, groups), results, failure) == DeletedAllEx(start, args[..i], mode)
      invariant NotesDeleted(old(stream.ids), stream.ids, old(stream.maxDeleted), stream.maxDeleted)
    {
      DeletedAllExStep(start, args, mode, i);
      ghost var was, noted := stream.ids, stream.maxDeleted;
      var one := DeleteExOne(stream, groups, args[i], mode);
      NotesJoin(old(stream.ids), was, stream.ids, old(stream.maxDeleted), noted, stream.maxDeleted);
      if one.Failed? {
        failure := Some(one.why);
        DeletedAllExStops(start, args, mode, i + 1);
        return;
      }
      results := results + [one.n];
    }
    assert args[..|args|] == args;
  }

  method AckIn(stream: XStream, groups: seq<StreamGroup>, j: nat, arg: IdArg) returns (acked: Option<int>)
    requires stream.Valid() && DistinctGroups(stream, groups) && j < |groups|
    modifies groups[j]
    ensures stream.Valid() && stream.Abs() == old(stream.Abs())
    ensures var (h, n) := AckedIn(old(groups[j].Abs()), arg);
      acked == n && StatesOf(groups) == old(StatesOf(groups))[j := h]
  {
    acked := groups[j].Ack(if arg.Key? then [arg.id] else []);
  }

  method AckDeletePending(stream: XStream, groups: seq<StreamGroup>, j: nat, arg: IdArg, ind: nat, mode: DeleteMode)
    returns (r: Outcome)
    requires stream.Valid() && DistinctGroups(stream, groups) && j < |groups| && ind < |stream.ids|
    modifies stream, groups
    ensures stream.Valid()
    ensures (StoreOf(stream, groups), r) ==
            AckDeletedPending(old(StoreOf(stream, groups)), j, arg, old(stream.ids[ind]), mode)
    ensures NotesDeleted(old(stream.ids), stream.ids, old(stream.maxDeleted), stream.maxDeleted)
  {
    var acked := AckIn(stream, groups, j, arg);
    if acked.None? {
      return Failed(KeyError);
    }
    r := KeepOrDelete(stream, groups, ind, mode);
  }

  /** XACKDEL of one id in the j-th group; acknowledging may raise. */
  method AckDeleteOne(stream: XStream, groups: seq<StreamGroup>, j: nat, arg: IdArg, mode: DeleteMode) returns (r: Outcome)
    requires stream.Valid() && DistinctGroups(stream, groups) && j < |groups|
    modifies stream, groups
    ensures stream.Valid()
    ensures (StoreOf(stream, groups), r) == AckDeleted(old(StoreOf(stream, groups)), j, arg, mode)
    ensures NotesDeleted(old(stream.ids), stream.ids, old(stream.maxDeleted), stream.maxDeleted)
  {
    var ind, miss := Locate(stream, arg);
    if miss.Some? {
      return miss.value;
    }
    if stream.ids[ind] !in groups[j].pel {
      return Done(-1);
    }
    r := AckDeletePending(stream, groups, j, arg, ind, mode);
  }

  /** XACKDEL. */
  method AckDelete(stream: XStream, groups: seq<StreamGroup>, j: nat, args: seq<IdArg>, mode: DeleteMode)
    returns (results: seq<int>, failure: Option<Failure>)
    requires stream.Valid() && DistinctGroups(stream, groups) && j < |groups|
    modifies stream, groups
    ensures stream.Valid()
    ensures (StoreOf(stream, groups), results, failure) == AckDeletedAll(old(StoreOf(stream, groups)), j, args, mode)
    ensures NotesDeleted(old(stream.ids), stream.ids, old(stream.maxDeleted), stream.maxDeleted)
  {
    results, failure := [], None;
    ghost var start := StoreOf(stream, groups);
    for i := 0 to |args|
      invariant stream.Valid() && failure.None?
      invariant (StoreOf(stream, groups), results, failure) == AckDeletedAll(start, j, args[..i], mode)
      invariant NotesDeleted(old(stream.ids), stream.ids, old(stream.maxDeleted), stream.maxDeleted)
    {
      AckDeletedAllStep(start, j, args, mode, i);
      ghost var was, noted := stream.ids, stream.maxDeleted;
      var one := AckDeleteOne(stream, groups, j, args[i], mode);
      NotesJoin(old(stream.ids), was, stream.ids, old(stream.maxDeleted), noted, stream.maxDeleted);
      if one.Failed? {
        failure := Some(one.why);
        AckDeletedAllStops(start, j, args, mode, i + 1);
        return;
      }
      results := results + [one.n];
    }
    assert args[..|args|] == args;
  }
}
