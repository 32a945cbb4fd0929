/**
 Which commands report all they change, and what a watching session misses of
 those that do not.
 */
module Reporting {
  import opened Bytes
  import opened Commands
  import opened Locking
  import opened Options
  import opened Slices
  import opened Streams
  import opened Transactions

  // ---------- reporting ----------

  /** Every key whose value the command changes is written back. */
  ghost predicate Reported(contents: Keyspace, e: Effect) {
    ChangedWithin(contents, Commands.Outcome(contents, e), WrittenKeys(e.writes, |contents.dbs|))
  }

  /** Every key that the command changes is among those it reports. */
  ghost predicate TellsAll(engine: Engine, contents: Keyspace, current: nat, cmd: Command)
    requires current < |contents.dbs|
  {
    ChangedWithin(contents, Apply(engine, contents, current, cmd).0, TouchedBy(engine, contents, current, cmd))
  }

  /**
   An ordinary command does if and only if no key that it stores directly, or
   whose object it changes in place, and that it does not write back, ends up
   with another value.
   */
  lemma DataTellsAllIff(engine: Engine, contents: Keyspace, current: nat, text: seq<Bytes>)
    requires current < |contents.dbs|
    ensures
      var e := engine(text, contents, current);
      && (TellsAll(engine, contents, current, Data(text)) <==> Reported(contents, e))
      && (Reported(contents, e) <==>
            forall k, d | (k, d) in SilentKeys(contents, e) ::
              Lookup(Commands.Outcome(contents, e), k, d) == Lookup(contents, k, d))
  {
    DataChanges(contents, engine(text, contents, current));
  }

  lemma OthersTellAll(engine: Engine, contents: Keyspace, current: nat, cmd: Command)
    requires current < |contents.dbs| && (cmd.Flush? || cmd.Select? || cmd.Unwatch?)
    ensures TellsAll(engine, contents, current, cmd)
  {
    CommandChanges(engine, contents, current, cmd);
  }

  /** The values of one database. */
  function ValuesOf(contents: Keyspace, db: nat): map<Bytes, Value>
    requires db < |contents.dbs|
  {
    map k | k in contents.dbs[db] && contents.dbs[db][k] in contents.heap :: contents.heap[contents.dbs[db][k]]
  }

  /** SWAPDB reports nothing, so it tells all only if the two databases hold the same. */
  lemma SwapTellsAllIff(engine: Engine, contents: Keyspace, current: nat, i: nat, j: nat)
    requires current < |contents.dbs|
    ensures TellsAll(engine, contents, current, Swap(i, j)) <==>
            (i < |contents.dbs| && j < |contents.dbs| ==> ValuesOf(contents, i) == ValuesOf(contents, j))
  {
    if i < |contents.dbs| && j < |contents.dbs| {
      var after := contents.(dbs := Swapped(contents.dbs, i, j));
      forall k ensures Lookup(after, k, j) == Lookup(contents, k, i) && Lookup(after, k, i) == Lookup(contents, k, j) {
      }
      if ValuesOf(contents, i) != ValuesOf(contents, j) {
        var key := DifferingKey(contents, i, j);
      } else {
        forall k ensures Lookup(contents, k, i) == Lookup(contents, k, j) {
          assert k in ValuesOf(contents, i) <==> k in ValuesOf(contents, j);
        }
      }
    }
  }

  lemma DifferingKey(contents: Keyspace, i: nat, j: nat) returns (key: Bytes)
    requires i < |contents.dbs| && j < |contents.dbs| && ValuesOf(contents, i) != ValuesOf(contents, j)
    ensures Lookup(contents, key, i) != Lookup(contents, key, j)
  {
    var a, b := ValuesOf(contents, i), ValuesOf(contents, j);
    if a.Keys != b.Keys {
      key :| key in a.Keys + b.Keys && (key in a) != (key in b);
    } else {
      key :| key in a && a[key] != b[key];
    }
  }

  // ---------- changes in place ----------

  /** No other key holds the object of this one. */
  ghost predicate Alone(contents: Keyspace, key: Bytes, db: nat) {
    forall k, d: nat | Bound(contents.dbs, k, d) == Bound(contents.dbs, key, db) :: k == key && d == db
  }

  /** The object of a key gets another value, in place. */
  function InPlace(contents: Keyspace, key: Bytes, db: nat, v: Value, back: bool, reply: Reply): Effect
    requires Lookup(contents, key, db).Some?
  {
    var ref := Bound(contents.dbs, key, db).value;
    Effect(map[ref := v], None, if back then [Item(key, db, Some(ref))] else [], reply)
  }

  lemma InPlaceOutcome(contents: Keyspace, key: Bytes, db: nat, v: Value, back: bool, reply: Reply)
    requires Lookup(contents, key, db).Some?
    ensures
      var e := InPlace(contents, key, db, v, back, reply);
      && Commands.Outcome(contents, e).dbs == contents.dbs
      && WrittenKeys(e.writes, |contents.dbs|) == (if back then {(key, db)} else {})
      && forall k, d ::
           Lookup(Commands.Outcome(contents, e), k, d) ==
             if Bound(contents.dbs, k, d) == Bound(contents.dbs, key, db) then Some(v) else Lookup(contents, k, d)
  {
    var item := Item(key, db, Bound(contents.dbs, key, db));
    WrittenOne(contents.dbs, item);
    assert contents.dbs[db][key := item.value.value] == contents.dbs[db];
    assert Put(contents.dbs, item) == contents.dbs;
  }

  /** A change in place that is not written back goes unreported, unless it changes nothing. */
  lemma UnreportedIff(contents: Keyspace, key: Bytes, db: nat, v: Value, reply: Reply)
    requires Lookup(contents, key, db).Some?
    ensures Reported(contents, InPlace(contents, key, db, v, false, reply)) <==> Lookup(contents, key, db) == Some(v)
  {
    InPlaceOutcome(contents, key, db, v, false, reply);
    assert Lookup(contents, key, db) != Some(v) ==>
      Lookup(Commands.Outcome(contents, InPlace(contents, key, db, v, false, reply)), key, db) == Some(v);
  }

  /** One that is written back is reported for this key, but for no other key that holds the same object. */
  lemma WrittenBackIff(contents: Keyspace, key: Bytes, db: nat, v: Value, reply: Reply)
    requires Lookup(contents, key, db).Some?
    ensures Reported(contents, InPlace(contents, key, db, v, true, reply)) <==>
            Lookup(contents, key, db) == Some(v) || Alone(contents, key, db)
  {
    InPlaceOutcome(contents, key, db, v, true, reply);
    if Lookup(contents, key, db) != Some(v) && !Alone(contents, key, db) {
      var k, d: nat :| Bound(contents.dbs, k, d) == Bound(contents.dbs, key, db) && !(k == key && d == db);
      assert Lookup(Commands.Outcome(contents, InPlace(contents, key, db, v, true, reply)), k, d) == Some(v);
      assert Lookup(contents, k, d) == Lookup(contents, key, db);
    }
  }

  /** A command without effect. */
  function NoEffect(reply: Reply): Effect {
    Effect(map[], None, [], reply)
  }

  lemma NoEffectIsReported(contents: Keyspace, reply: Reply)
    ensures Commands.Outcome(contents, NoEffect(reply)) == contents && Reported(contents, NoEffect(reply))
  {
  }

  /** A new object, held by nobody yet. */
  ghost predicate IsNew(contents: Keyspace, ref: Ref) {
    ref !in contents.heap && forall k, d: nat :: Bound(contents.dbs, k, d) != Some(ref)
  }

  /** A key gets a new object, and is written back. */
  function Created(key: Bytes, db: nat, ref: Ref, v: Value, reply: Reply): Effect {
    Effect(map[ref := v], None, [Item(key, db, Some(ref))], reply)
  }

  lemma CreatedOutcome(contents: Keyspace, key: Bytes, db: nat, ref: Ref, v: Value, reply: Reply)
    requires db < |contents.dbs| && IsNew(contents, ref)
    ensures
      var e := Created(key, db, ref, v, reply);
      && WrittenKeys(e.writes, |contents.dbs|) == {(key, db)}
      && forall k, d: nat ::
           Lookup(Commands.Outcome(contents, e), k, d) == if k == key && d == db then Some(v) else Lookup(contents, k, d)
  {
    WrittenOne(contents.dbs, Item(key, db, Some(ref)));
  }

  // ---------- MOVE and COPY ----------

  /** MOVE: the item is stored in the other database, and the key is written back as absent. */
  function MoveEffect(contents: Keyspace, current: nat, key: Bytes, db: nat): Effect {
    if db == current || db >= |contents.dbs| then NoEffect(Error)
    else if Lookup(contents, key, current).None? || Lookup(contents, key, db).Some? then NoEffect(Number(0))
    else Effect(map[], Some(Item(key, db, Bound(contents.dbs, key, current))), [Item(key, current, None)], Number(1))
  }

  lemma MovedOutcome(contents: Keyspace, current: nat, key: Bytes, db: nat)
    requires current < |contents.dbs| && db < |contents.dbs| && db != current
    requires Lookup(contents, key, current).Some? && Lookup(contents, key, db).None?
    ensures
      var e := MoveEffect(contents, current, key, db);
      && WrittenKeys(e.writes, |contents.dbs|) == {(key, current)}
      && forall k, d: nat ::
           Lookup(Commands.Outcome(contents, e), k, d) ==
             if k == key && d == current then None
             else if k == key && d == db then Lookup(contents, key, current)
             else Lookup(contents, k, d)
  {
    WrittenOne(Put(contents.dbs, Item(key, db, Bound(contents.dbs, key, current))), Item(key, current, None));
  }

  /** MOVE does not report the key it brings to the other database. */
  lemma MoveReportsIff(contents: Keyspace, current: nat, key: Bytes, db: nat)
    requires current < |contents.dbs|
    ensures Reported(contents, MoveEffect(contents, current, key, db)) <==>
            || db == current || db >= |contents.dbs|
            || Lookup(contents, key, current).None? || Lookup(contents, key, db).Some?
  {
    var e := MoveEffect(contents, current, key, db);
    if db == current || db >= |contents.dbs| || Lookup(contents, key, current).None? || Lookup(contents, key, db).Some? {
      NoEffectIsReported(contents, e.reply);
    } else {
      MovedOutcome(contents, current, key, db);
      assert Lookup(Commands.Outcome(contents, e), key, db) != Lookup(contents, key, db);
    }
  }

  /** COPY: the other key holds the same object from now on; it is stored directly and then written back. */
  function CopyEffect(contents: Keyspace, current: nat, key: Bytes, newKey: Bytes, db: nat, replace: bool): Effect {
    if db >= |contents.dbs| || (key == newKey && db == current) then NoEffect(Error)
    else if (Lookup(contents, newKey, db).Some? && !replace) || Lookup(contents, key, current).None? then NoEffect(Number(0))
    else
      var item := Item(newKey, db, Bound(contents.dbs, key, current));
      Effect(map[], Some(item), [item], Number(1))
  }

  /** COPY reports what it changes; after it the two keys hold one object. */
  lemma CopySharesObject(contents: Keyspace, current: nat, key: Bytes, newKey: Bytes, db: nat, replace: bool)
    requires current < |contents.dbs|
    ensures
      var e := CopyEffect(contents, current, key, newKey, db, replace);
      var after := Commands.Outcome(contents, e);
      && Reported(contents, e)
      && (e.reply == Number(1) ==>
            && Bound(after.dbs, newKey, db) == Bound(contents.dbs, key, current) == Bound(after.dbs, key, current)
            && Lookup(after, newKey, db) == Lookup(contents, key, current) && !Alone(after, key, current))
  {
    var e := CopyEffect(contents, current, key, newKey, db, replace);
    if e.reply == Number(1) {
      WrittenOne(PutDirectly(contents.dbs, e.store), e.writes[0]);
      WrittenOne(contents.dbs, e.writes[0]);
      DataChanges(contents, e);
      assert Bound(Commands.Outcome(contents, e).dbs, newKey, db) == Bound(Commands.Outcome(contents, e).dbs, key, current);
    } else {
      NoEffectIsReported(contents, e.reply);
    }
  }

  // ---------- RPUSH ----------

  function RpushEffect(contents: Keyspace, current: nat, key: Bytes, values: seq<Bytes>, ref: Ref): Effect {
    match Lookup(contents, key, current)
    case None => Created(key, current, ref, Elems(values), Number(|values|))
    case Some(Elems(l)) => InPlace(contents, key, current, Elems(l + values), true, Number(|l| + |values|))
    case Some(_) => NoEffect(Error)
  }

  /** A push reports all it changes if and only if no other key holds the list, as one does after COPY. */
  lemma RpushReportsIff(contents: Keyspace, current: nat, key: Bytes, values: seq<Bytes>, ref: Ref)
    requires current < |contents.dbs| && IsNew(contents, ref) && values != []
    ensures Reported(contents, RpushEffect(contents, current, key, values, ref)) <==>
            var was := Lookup(contents, key, current); was.Some? && was.value.Elems? ==> Alone(contents, key, current)
  {
    match Lookup(contents, key, current)
    case None => CreatedOutcome(contents, key, current, ref, Elems(values), Number(|values|));
    case Some(v) =>
      if v.Elems? {
        assert v.elems + values != v.elems;
        WrittenBackIff(contents, key, current, Elems(v.elems + values), Number(|v.elems| + |values|));
      } else {
        NoEffectIsReported(contents, Error);
      }
  }

  // ---------- XDEL ----------

  function DeletionReply(r: Streams.Outcome): Reply {
    if r.Done? then Number(r.n) else Error
  }

  /** XDEL: the entries leave the stream in place, and the key is not written back. */
  function XdelEffect(contents: Keyspace, current: nat, key: Bytes, args: seq<IdArg>): Effect {
    match Lookup(contents, key, current)
    case None => NoEffect(DeletionReply(DeleteAll(Index([], map[]), args).1))
    case Some(Entries(x)) =>
      var (y, r) := DeleteAll(x, args);
      InPlace(contents, key, current, Entries(y), false, DeletionReply(r))
    case Some(_) => NoEffect(Error)
  }

  predicate IsStored(ids: seq<Id>, arg: IdArg) {
    match arg
    case Dollar => ids != []
    case Key(id) => id in ids
    case Malformed => false
  }

  /** Some argument denotes a stored entry, and those before it are ids that are not there. */
  ghost predicate SomeHit(ids: seq<Id>, args: seq<IdArg>) {
    exists i | 0 <= i < |args| :: IsStored(ids, args[i]) && forall j | 0 <= j < i :: IsMissing(ids, args[j])
  }

  predicate IsMissing(ids: seq<Id>, arg: IdArg) {
    arg.Key? && arg.id !in ids
  }

  lemma DeleteOneShrinks(x: Index, arg: IdArg)
    ensures var (y, r) := DeleteOne(x, arg);
      if IsStored(x.ids, arg) then |y.ids| == |x.ids| - 1 && r == Done(1)
      else y == x && (r == Done(0) <==> IsMissing(x.ids, arg)) && (!IsMissing(x.ids, arg) ==> r.Failed?)
  {
  }

  /** XDEL changes the stream if and only if it comes to an entry that is stored. */
  lemma {:induction false} DeleteAllChangesIff(x: Index, args: seq<IdArg>)
    ensures
      var (y, r) := DeleteAll(x, args);
      && |y.ids| <= |x.ids|
      && (if SomeHit(x.ids, args) then |y.ids| < |x.ids| else y == x)
      && (!SomeHit(x.ids, args) ==> (r.Done? <==> forall j | 0 <= j < |args| :: IsMissing(x.ids, args[j])))
  {
    if args != [] {
      var init, last := args[..|args| - 1], args[|args| - 1];
      DeleteAllChangesIff(x, init);
      var y := DeleteAll(x, init).0;
      DeleteOneShrinks(y, last);
      HitAppend(x.ids, init, last);
      assert args == init + [last];
    }
  }

  lemma HitAppend(ids: seq<Id>, args: seq<IdArg>, last: IdArg)
    ensures SomeHit(ids, args + [last]) <==>
            SomeHit(ids, args) || (IsStored(ids, last) && forall j | 0 <= j < |args| :: IsMissing(ids, args[j]))
  {
    var more := args + [last];
    if i :| 0 <= i < |args| && IsStored(ids, args[i]) && forall j | 0 <= j < i :: IsMissing(ids, args[j]) {
      assert IsStored(ids, more[i]) && forall j | 0 <= j < i :: IsMissing(ids, more[j]);
    }
    if IsStored(ids, last) && forall j | 0 <= j < |args| :: IsMissing(ids, args[j]) {
      assert IsStored(ids, more[|args|]) && forall j | 0 <= j < |args| :: IsMissing(ids, more[j]);
    }
    if i :| 0 <= i < |more| && IsStored(ids, more[i]) && forall j | 0 <= j < i :: IsMissing(ids, more[j]) {
      assert forall j | 0 <= j < i :: args[j] == more[j];
      if i < |args| {
        assert IsStored(ids, args[i]) && forall j | 0 <= j < i :: IsMissing(ids, args[j]);
      }
    }
  }

  /** XDEL reports all it changes if and only if it comes to no entry that is stored. */
  lemma XdelReportsIff(contents: Keyspace, current: nat, key: Bytes, args: seq<IdArg>)
    ensures Reported(contents, XdelEffect(contents, current, key, args)) <==>
            var was := Lookup(contents, key, current);
            was.Some? && was.value.Entries? ==> !SomeHit(was.value.index.ids, args)
  {
    var was := Lookup(contents, key, current);
    if was.Some? && was.value.Entries? {
      var (y, r) := DeleteAll(was.value.index, args);
      DeleteAllChangesIff(was.value.index, args);
      UnreportedIff(contents, key, current, Entries(y), DeletionReply(r));
    } else {
      NoEffectIsReported(contents, XdelEffect(contents, current, key, args).reply);
    }
  }

  // ---------- XADD ----------

  /** The trimming options of XADD. */
  datatype Trimming = Trimming(maxLength: Option<int>, minId: Option<IdArg>, limit: Option<int>)

  /** The stream after the trimming that an addition asks for; None if that raises. */
  function Trimmed(x: Index, t: Trimming): Option<Index> {
    if t.maxLength.Some? && t.minId.Some? then None
    else if TrimFrom(x.ids, t.maxLength, t.minId).None? then None
    else
      var n := TrimCount(TrimFrom(x.ids, t.maxLength, t.minId).value, t.limit);
      Some(CutIndex(x, n))
  }

  function CutIndex(x: Index, n: int): Index {
    Index(Drop(x.ids, n), x.values - set k | k in Take(x.ids, n))
  }

  /** XADD: the entry joins the stream in place; the key is written back unless the trimming raises. */
  function XaddEffect(
      contents: Keyspace, current: nat, key: Bytes, spec: NewId, fields: Entry, t: Trimming, ref: Ref): Effect
  {
    var was := Lookup(contents, key, current);
    if was.Some? && !was.value.Entries? then NoEffect(Error)
    else
      var x := if was.Some? then was.value.index else Index([], map[]);
      var id := ChooseId(x.ids, spec);
      if !Accepts(x.ids, id) then NoEffect(Error)
      else
        var y := Added(x, id, fields);
        match Trimmed(y, t)
        case None => if was.Some? then InPlace(contents, key, current, Entries(y), false, Error) else NoEffect(Error)
        case Some(z) =>
          if was.Some? then InPlace(contents, key, current, Entries(z), true, Ok)
          else Created(key, current, ref, Entries(z), Ok)
  }

  /**
   XADD to a stream reports all it changes if and only if the id is refused, or
   the trimming is well formed and no other key holds the stream (or all that
   was added is trimmed off at once).
   */
  lemma XaddReportsIff(contents: Keyspace, current: nat, key: Bytes, spec: NewId, fields: Entry, t: Trimming, ref: Ref)
    requires current < |contents.dbs| && IsNew(contents, ref)
    ensures Reported(contents, XaddEffect(contents, current, key, spec, fields, t, ref)) <==>
            var was := Lookup(contents, key, current);
            was.Some? && was.value.Entries? && Accepts(was.value.index.ids, ChooseId(was.value.index.ids, spec)) ==>
              var x := was.value.index;
              var z := Trimmed(Added(x, ChooseId(x.ids, spec), fields), t);
              z.Some? && (z.value == x || Alone(contents, key, current))
  {
    var was := Lookup(contents, key, current);
    var e := XaddEffect(contents, current, key, spec, fields, t, ref);
    if was.Some? && was.value.Entries? && Accepts(was.value.index.ids, ChooseId(was.value.index.ids, spec)) {
      var x := was.value.index;
      var y := Added(x, ChooseId(x.ids, spec), fields);
      assert |y.ids| == |x.ids| + 1;
      match Trimmed(y, t)
      case None => UnreportedIff(contents, key, current, Entries(y), Error);
      case Some(z) => WrittenBackIff(contents, key, current, Entries(z), Ok);
    } else if e.changes == map[] {
      NoEffectIsReported(contents, e.reply);
    } else {
      CreatedOutcome(contents, key, current, ref, e.changes[ref], e.reply);
    }
  }

  // ---------- LMPOP ----------

  /** What a key must hold for a pop to pass over it: nothing, or a container that is empty. */
  predicate IsEmptyValue(v: Option<Value>) {
    match v
    case None => true
    case Some(Elems(l)) => l == []
    case Some(Fields(f)) => f == map[]
    case Some(Slots(a)) => a == map[]
    case Some(_) => false
  }

  predicate IsList(v: Option<Value>) {
    v.Some? && v.value.Elems? && v.value.elems != []
  }

  /** What is left of a list after a pop of count elements from one end. */
  function AfterPop(l: seq<Bytes>, count: nat, left: bool): seq<Bytes> {
    var n := if count < |l| then count else |l|;
    if left then l[n..] else l[..|l| - n]
  }

  /** LMPOP, and a pass of BLMPOP: the first list that is not empty is popped in place, and not written back. */
  function LmpopEffect(contents: Keyspace, current: nat, keys: seq<Bytes>, count: nat, left: bool): Effect {
    if keys == [] then NoEffect(Nil)
    else
      var was := Lookup(contents, keys[0], current);
      if IsEmptyValue(was) then LmpopEffect(contents, current, keys[1..], count, left)
      else if IsList(was) then
        InPlace(contents, keys[0], current, Elems(AfterPop(was.value.elems, count, left)), false, Ok)
      else NoEffect(Error)
  }

  /** The first key that holds something holds a list. */
  ghost predicate ReachesList(contents: Keyspace, current: nat, keys: seq<Bytes>) {
    exists i | 0 <= i < |keys| ::
      && IsList(Lookup(contents, keys[i], current))
      && forall j | 0 <= j < i :: IsEmptyValue(Lookup(contents, keys[j], current))
  }

  lemma ReachStep(contents: Keyspace, current: nat, keys: seq<Bytes>)
    requires keys != []
    ensures ReachesList(contents, current, keys) <==>
            var was := Lookup(contents, keys[0], current);
            IsList(was) || (IsEmptyValue(was) && ReachesList(contents, current, keys[1..]))
  {
    var rest := keys[1..];
    if i :| 0 <= i < |rest| && IsList(Lookup(contents, rest[i], current)) &&
            forall j | 0 <= j < i :: IsEmptyValue(Lookup(contents, rest[j], current)) {
      if IsEmptyValue(Lookup(contents, keys[0], current)) {
        assert IsList(Lookup(contents, keys[i + 1], current));
        assert forall j | 0 <= j < i + 1 :: j > 0 ==> keys[j] == rest[j - 1];
        assert ReachesList(contents, current, keys);
      }
    }
    if i :| 0 <= i < |keys| && IsList(Lookup(contents, keys[i], current)) &&
            forall j | 0 <= j < i :: IsEmptyValue(Lookup(contents, keys[j], current)) {
      if i > 0 {
        assert rest[i - 1] == keys[i] && forall j | 0 <= j < i - 1 :: rest[j] == keys[j + 1];
        assert ReachesList(contents, current, rest);
      }
    }
    if IsList(Lookup(contents, keys[0], current)) {
      assert ReachesList(contents, current, keys);
    }
  }

  /** LMPOP reports all it changes if and only if it pops nothing. */
  lemma {:induction false} LmpopReportsIff(contents: Keyspace, current: nat, keys: seq<Bytes>, count: nat, left: bool)
    requires count >= 1
    ensures Reported(contents, LmpopEffect(contents, current, keys, count, left)) <==> !ReachesList(contents, current, keys)
  {
    if keys == [] {
      NoEffectIsReported(contents, Nil);
    } else {
      ReachStep(contents, current, keys);
      var was := Lookup(contents, keys[0], current);
      if IsEmptyValue(was) {
        LmpopReportsIff(contents, current, keys[1..], count, left);
      } else if IsList(was) {
        assert |AfterPop(was.value.elems, count, left)| < |was.value.elems|;
        UnreportedIff(contents, keys[0], current, Elems(AfterPop(was.value.elems, count, left)), Ok);
      } else {
        NoEffectIsReported(contents, Error);
      }
    }
  }

  // ---------- hash fields and array slots ----------

  /**
   HEXPIRE and its kin, and HGETEX: a time that has passed removes the fields
   that NX, XX, GT or LT admits, in place, and the key is not written back.
   */
  function HexpireEffect(contents: Keyspace, current: nat, key: Bytes, fields: set<Bytes>, passed: bool): Effect {
    match Lookup(contents, key, current)
    case Some(Fields(f)) =>
      if passed then InPlace(contents, key, current, Fields(f - fields), false, Ok) else NoEffect(Ok)
    case None => NoEffect(Ok)
    case Some(_) => NoEffect(Error)
  }

  lemma HexpireReportsIff(contents: Keyspace, current: nat, key: Bytes, fields: set<Bytes>, passed: bool)
    ensures Reported(contents, HexpireEffect(contents, current, key, fields, passed)) <==>
            var was := Lookup(contents, key, current);
            was.Some? && was.value.Fields? && passed ==> fields !! was.value.fields.Keys
  {
    var was := Lookup(contents, key, current);
    if was.Some? && was.value.Fields? && passed {
      var f := was.value.fields;
      if k :| k in fields && k in f {
        assert k !in (f - fields);
      } else {
        assert f - fields == f;
      }
      UnreportedIff(contents, key, current, Fields(f - fields), Ok);
    } else {
      NoEffectIsReported(contents, HexpireEffect(contents, current, key, fields, passed).reply);
    }
  }

  /** The slots set up to the first negative index, and whether there is none. */
  function SlotsSet(a: map<int, Bytes>, pairs: seq<(int, Bytes)>): (map<int, Bytes>, bool)
    decreases |pairs|
  {
    if pairs == [] then (a, true)
    else if pairs[0].0 < 0 then (a, false)
    else SlotsSet(a[pairs[0].0 := pairs[0].1], pairs[1..])
  }

  /** ARMSET: the slots are set in place; the key is written back unless an index is negative. */
  function ArmsetEffect(contents: Keyspace, current: nat, key: Bytes, pairs: seq<(int, Bytes)>, ref: Ref): Effect {
    match Lookup(contents, key, current)
    case None =>
      var (a, ok) := SlotsSet(map[], pairs);
      if ok then Created(key, current, ref, Slots(a), Ok) else NoEffect(Error)
    case Some(Slots(s)) =>
      var (a, ok) := SlotsSet(s, pairs);
      InPlace(contents, key, current, Slots(a), ok, if ok then Ok else Error)
    case Some(_) => NoEffect(Error)
  }

  /**
   ARMSET to an array reports all it changes if and only if it sets nothing
   new, or no index is negative and no other key holds the array.
   */
  lemma ArmsetReportsIff(contents: Keyspace, current: nat, key: Bytes, pairs: seq<(int, Bytes)>, ref: Ref)
    requires current < |contents.dbs| && IsNew(contents, ref)
    ensures Reported(contents, ArmsetEffect(contents, current, key, pairs, ref)) <==>
            var was := Lookup(contents, key, current);
            was.Some? && was.value.Slots? ==>
              var (a, ok) := SlotsSet(was.value.slots, pairs);
              a == was.value.slots || (ok && Alone(contents, key, current))
  {
    var was := Lookup(contents, key, current);
    var e := ArmsetEffect(contents, current, key, pairs, ref);
    if was.Some? && was.value.Slots? {
      var (a, ok) := SlotsSet(was.value.slots, pairs);
      if ok {
        WrittenBackIff(contents, key, current, Slots(a), Ok);
      } else {
        UnreportedIff(contents, key, current, Slots(a), Error);
      }
    } else if e.changes == map[] {
      NoEffectIsReported(contents, e.reply);
    } else {
      CreatedOutcome(contents, key, current, ref, e.changes[ref], e.reply);
    }
  }

  // ---------- what these commands do and answer ----------

  /** What a key holds after a command. */
  function After(contents: Keyspace, e: Effect, key: Bytes, db: nat): Option<Value> {
    Lookup(Commands.Outcome(contents, e), key, db)
  }

  /** MOVE takes the value to the other database, if that exists, is another one, and has no such key, and the key is there. */
  lemma MoveResult(contents: Keyspace, current: nat, key: Bytes, db: nat)
    requires current < |contents.dbs|
    ensures
      var e := MoveEffect(contents, current, key, db);
      if db >= |contents.dbs| || db == current then e == NoEffect(Error)
      else if Lookup(contents, key, current).None? || Lookup(contents, key, db).Some? then e == NoEffect(Number(0))
      else
        && e.reply == Number(1) && After(contents, e, key, current) == None
        && After(contents, e, key, db) == Lookup(contents, key, current)
  {
    if db < |contents.dbs| && db != current && Lookup(contents, key, current).Some? && Lookup(contents, key, db).None? {
      MovedOutcome(contents, current, key, db);
    }
  }

  /** COPY succeeds if the other key is another one, in a database that exists, and is free or to be replaced. */
  lemma CopyResult(contents: Keyspace, current: nat, key: Bytes, newKey: Bytes, db: nat, replace: bool)
    requires current < |contents.dbs|
    ensures
      var e := CopyEffect(contents, current, key, newKey, db, replace);
      if db >= |contents.dbs| || (db == current && newKey == key) then e == NoEffect(Error)
      else if Lookup(contents, key, current).Some? && (replace || Lookup(contents, newKey, db).None?) then
        && e.reply == Number(1) && After(contents, e, newKey, db) == Lookup(contents, key, current)
        && After(contents, e, key, current) == Lookup(contents, key, current)
      else e == NoEffect(Number(0))
  {
    CopySharesObject(contents, current, key, newKey, db, replace);
  }

  /** RPUSH puts the values behind the list, in order, and answers with its length. */
  lemma RpushResult(contents: Keyspace, current: nat, key: Bytes, values: seq<Bytes>, ref: Ref)
    requires current < |contents.dbs| && IsNew(contents, ref)
    ensures
      var was, e := Lookup(contents, key, current), RpushEffect(contents, current, key, values, ref);
      if was.Some? && !was.value.Elems? then e == NoEffect(Error)
      else
        var l := if was.Some? then was.value.elems else [];
        After(contents, e, key, current) == Some(Elems(l + values)) && e.reply == Number(|l + values|)
  {
    match Lookup(contents, key, current)
    case None =>
      CreatedOutcome(contents, key, current, ref, Elems(values), Number(|values|));
      assert [] + values == values;
    case Some(v) =>
      if v.Elems? {
        InPlaceOutcome(contents, key, current, Elems(v.elems + values), true, Number(|v.elems| + |values|));
      }
  }

  /** XDEL of ids takes them out of the stream, and answers with how many were there. */
  lemma XdelResult(contents: Keyspace, current: nat, key: Bytes, args: seq<IdArg>)
    requires forall a | a in args :: a.Key?
    requires var was := Lookup(contents, key, current); was.Some? && was.value.Entries? && IndexOk(was.value.index)
    ensures
      var x, e := Lookup(contents, key, current).value.index, XdelEffect(contents, current, key, args);
      var left := After(contents, e, key, current);
      && left.Some? && left.value.Entries?
      && (forall k :: k in left.value.index.ids <==> k in x.ids && Key(k) !in args)
      && e.reply == Number(|x.ids| - |left.value.index.ids|)
  {
    var x := Lookup(contents, key, current).value.index;
    var (y, r) := DeleteAll(x, args);
    DeleteAllRemovesExactly(x, args);
    InPlaceOutcome(contents, key, current, Entries(y), false, DeletionReply(r));
  }

  /** HEXPIRE with a time that has passed takes the fields out of the hash; with a later one it leaves the values alone. */
  lemma HexpireResult(contents: Keyspace, current: nat, key: Bytes, fields: set<Bytes>, passed: bool)
    requires var was := Lookup(contents, key, current); was.Some? && was.value.Fields?
    ensures
      var f, e := Lookup(contents, key, current).value.fields, HexpireEffect(contents, current, key, fields, passed);
      After(contents, e, key, current) == Some(Fields(if passed then f - fields else f)) && e.reply == Ok
  {
    var f := Lookup(contents, key, current).value.fields;
    if passed {
      InPlaceOutcome(contents, key, current, Fields(f - fields), false, Ok);
    }
  }

  /** What a pop passes over. */
  lemma EmptyValues(v: Option<Value>)
    ensures IsEmptyValue(v) <==> v in {None, Some(Elems([])), Some(Fields(map[])), Some(Slots(map[]))}
  {
  }

  /** At a value that is neither empty nor a list a pop fails, and with nothing to come to it answers nil, both without effect. */
  lemma LmpopElsewhere(contents: Keyspace, current: nat, keys: seq<Bytes>, count: nat, left: bool, i: nat)
    requires i <= |keys| && forall j | 0 <= j < i :: IsEmptyValue(Lookup(contents, keys[j], current))
    requires i < |keys| ==>
      var v := Lookup(contents, keys[i], current); !IsEmptyValue(v) && !(v.Some? && v.value.Elems?)
    ensures LmpopEffect(contents, current, keys, count, left) == NoEffect(if i < |keys| then Error else Nil)
    decreases i
  {
    if i > 0 {
      assert IsEmptyValue(Lookup(contents, keys[0], current));
      assert i < |keys| ==> keys[1..][i - 1] == keys[i];
      assert forall j | 0 <= j < i - 1 :: keys[1..][j] == keys[j + 1];
      LmpopElsewhere(contents, current, keys[1..], count, left, i - 1);
    }
  }

  /** LMPOP takes elements off one end of the first list it comes to, as many as asked for or as there are. */
  lemma LmpopResult(contents: Keyspace, current: nat, keys: seq<Bytes>, count: nat, left: bool, i: nat)
    requires i < |keys| && IsList(Lookup(contents, keys[i], current))
    requires forall j | 0 <= j < i :: IsEmptyValue(Lookup(contents, keys[j], current))
    ensures
      var l, e := Lookup(contents, keys[i], current).value.elems, LmpopEffect(contents, current, keys, count, left);
      var rest := After(contents, e, keys[i], current);
      && rest.Some? && rest.value.Elems? && e.reply == Ok
      && |rest.value.elems| == |l| - (if |l| <= count then |l| else count)
      && (if left then rest.value.elems == l[|l| - |rest.value.elems|..] else rest.value.elems == l[..|rest.value.elems|])
    decreases i
  {
    if i > 0 {
      assert keys[1..][i - 1] == keys[i] && forall j | 0 <= j < i - 1 :: keys[1..][j] == keys[j + 1];
      assert IsEmptyValue(Lookup(contents, keys[0], current));
      LmpopResult(contents, current, keys[1..], count, left, i - 1);
    } else {
      var l := Lookup(contents, keys[0], current).value.elems;
      InPlaceOutcome(contents, keys[0], current, Elems(AfterPop(l, count, left)), false, Ok);
    }
  }

  /** The i-th pair is the last one for its slot among the first n. */
  ghost predicate IsLastPair(pairs: seq<(int, Bytes)>, n: int, i: int, slot: int) {
    0 <= i < n <= |pairs| && pairs[i].0 == slot && forall j | i < j < n :: pairs[j].0 != slot
  }

  /** The pairs come to their slots in order, up to the first whose index is negative. */
  lemma {:induction false} SlotsSetResult(a: map<int, Bytes>, pairs: seq<(int, Bytes)>, n: nat, slot: int)
    requires n <= |pairs| && (forall i | 0 <= i < n :: pairs[i].0 >= 0) && (n < |pairs| ==> pairs[n].0 < 0)
    ensures
      var (b, ok) := SlotsSet(a, pairs);
      && (ok <==> n == |pairs|)
      && (forall i | IsLastPair(pairs, n, i, slot) :: slot in b && b[slot] == pairs[i].1)
      && ((forall i | 0 <= i < n :: pairs[i].0 != slot) ==> (slot in b <==> slot in a) && (slot in b ==> b[slot] == a[slot]))
    decreases n
  {
    if n > 0 {
      var rest := pairs[1..];
      SlotsSetResult(a[pairs[0].0 := pairs[0].1], rest, n - 1, slot);
      forall i | IsLastPair(pairs, n, i, slot) && i > 0 ensures IsLastPair(rest, n - 1, i - 1, slot) {
        assert forall j | 0 <= j < n - 1 :: rest[j] == pairs[j + 1];
      }
    }
  }

  /** ARMSET succeeds if no index is negative; if one is, the slots before it are set all the same when the array was there. */
  lemma ArmsetResult(contents: Keyspace, current: nat, key: Bytes, pairs: seq<(int, Bytes)>, ref: Ref)
    requires current < |contents.dbs| && IsNew(contents, ref)
    ensures
      var was, e := Lookup(contents, key, current), ArmsetEffect(contents, current, key, pairs, ref);
      if was.Some? && !was.value.Slots? then e == NoEffect(Error)
      else
        var ok := forall i | 0 <= i < |pairs| :: pairs[i].0 >= 0;
        && e.reply == (if ok then Ok else Error)
        && (was.None? && !ok ==> e == NoEffect(Error))
        && (was.Some? || ok ==>
              After(contents, e, key, current) == Some(Slots(SlotsSet(if was.Some? then was.value.slots else map[], pairs).0)))
  {
    var was := Lookup(contents, key, current);
    if was.None? || was.value.Slots? {
      var n := FirstNegative(pairs);
      var s := if was.Some? then was.value.slots else map[];
      SlotsSetResult(s, pairs, n, 0);
      var (a, ok) := SlotsSet(s, pairs);
      if was.Some? {
        InPlaceOutcome(contents, key, current, Slots(a), ok, if ok then Ok else Error);
      } else if ok {
        CreatedOutcome(contents, key, current, ref, Slots(a), Ok);
      }
    }
  }

  ghost function FirstNegative(pairs: seq<(int, Bytes)>): (n: nat)
    ensures n <= |pairs| && (forall i | 0 <= i < n :: pairs[i].0 >= 0) && (n < |pairs| ==> pairs[n].0 < 0)
  {
    if pairs == [] || pairs[0].0 < 0 then 0 else 1 + FirstNegative(pairs[1..])
  }

  /**
   XADD of an accepted id appends it; MAXLEN leaves that many of the last
   entries; MAXLEN together with MINID, or a MINID that is no id, is an error,
   found after the entry was added to a stream that was there.
   */
  lemma XaddResult(contents: Keyspace, current: nat, key: Bytes, spec: NewId, fields: Entry, t: Trimming, ref: Ref)
    requires current < |contents.dbs| && IsNew(contents, ref)
    requires var was := Lookup(contents, key, current); was.Some? ==> was.value.Entries?
    ensures
      var was, e := Lookup(contents, key, current), XaddEffect(contents, current, key, spec, fields, t, ref);
      var x := if was.Some? then was.value.index else Index([], map[]);
      forall id | IsRequested(x.ids, spec, id) ::
        if x.ids != [] && IdLess(id, x.ids[|x.ids| - 1]) then e == NoEffect(Error)
        else
          var ids, left := x.ids + [id], After(contents, e, key, current);
          var bad := (t.maxLength.Some? && t.minId.Some?) || t.minId == Some(Malformed);
          if bad then e.reply == Error && left == if was.None? then None else Some(Entries(Added(x, id, fields)))
          else
            && e.reply == Ok && left.Some? && left.value.Entries?
            && (t == UNTRIMMED ==> left == Some(Entries(Added(x, id, fields))))
            && (t.maxLength.Some? && t.maxLength.value >= 0 && t.limit.None? ==>
                  left.value.index.ids == ids[|ids| - (if |ids| <= t.maxLength.value then |ids| else t.maxLength.value)..])
  {
    var was, id := Lookup(contents, key, current), ChooseId(XaddIndex(contents, key, current).ids, spec);
    var x := XaddIndex(contents, key, current);
    forall k ensures IsRequested(x.ids, spec, k) <==> k == id {
      ChosenIsRequested(x.ids, spec, k);
    }
    var y, e := Added(x, id, fields), XaddEffect(contents, current, key, spec, fields, t, ref);
    if Accepts(x.ids, id) {
      if was.Some? {
        match Trimmed(y, t) {
          case None => InPlaceOutcome(contents, key, current, Entries(y), false, Error);
          case Some(z) => InPlaceOutcome(contents, key, current, Entries(z), true, Ok);
        }
      } else if e.changes != map[] {
        CreatedOutcome(contents, key, current, ref, e.changes[ref], e.reply);
      }
      TrimmedIs(y, t);
    }
  }

  /** The stream that XADD finds, an empty one if the key is missing. */
  function XaddIndex(contents: Keyspace, key: Bytes, current: nat): Index {
    match Lookup(contents, key, current)
    case Some(Entries(x)) => x
    case _ => Index([], map[])
  }

  lemma TrimmedIs(y: Index, t: Trimming)
    ensures Trimmed(y, t).None? <==> (t.maxLength.Some? && t.minId.Some?) || t.minId == Some(Malformed)
    ensures t == UNTRIMMED ==> Trimmed(y, t) == Some(y)
    ensures t.maxLength.Some? && t.minId.None? && t.maxLength.value >= 0 && t.limit.None? ==>
      var n := if |y.ids| <= t.maxLength.value then |y.ids| else t.maxLength.value;
      Trimmed(y, t).Some? && Trimmed(y, t).value.ids == y.ids[|y.ids| - n..]
  {
    assert t == UNTRIMMED ==> CutIndex(y, 0) == y;
  }

  // ---------- what a watching session misses ----------

  /** The session watches the key, the command changes it, and after the command the session is not dirty. */
  ghost predicate IsMissed(contents: Keyspace, e: Effect, later: seq<Event>, watcher: Socket, key: Bytes, db: nat) {
    && (key, db) in Replay(later, watcher).watched
    && Lookup(Commands.Outcome(contents, e), key, db) != Lookup(contents, key, db)
    && !TouchedSinceWatch(later, watcher)
  }

  lemma {:induction false} StaysClean(
      log: seq<Event>, later: seq<Event>, actor: Socket, watcher: Socket, touched: set<(Bytes, nat)>)
    requires log <= later && actor != watcher && !Replay(log, watcher).dirty && Replay(log, watcher).watched !! touched
    requires forall i | |log| <= i < |later| ::
      later[i] == Cleared(actor) || (later[i].Touched? && (later[i].key, later[i].db) in touched)
    ensures Replay(later, watcher) == Replay(log, watcher)
  {
    if log != later {
      var n := |later| - 1;
      StaysClean(log, later[..n], actor, watcher, touched);
      assert later == later[..n] + [later[n]];
      ReplayStep(later[..n], later[n], watcher);
    }
  }

  /** A clean session that watches one key misses a command exactly when the command changes the key without reporting it. */
  lemma MissedIff(
      contents: Keyspace, e: Effect, log: seq<Event>, later: seq<Event>, actor: Socket, watcher: Socket, key: Bytes, db: nat)
    requires actor != watcher && Replay(log, watcher).watched == {(key, db)} && !Replay(log, watcher).dirty
    requires Reports(log, later, actor, WrittenKeys(e.writes, |contents.dbs|))
    ensures IsMissed(contents, e, later, watcher, key, db) <==>
            && Lookup(Commands.Outcome(contents, e), key, db) != Lookup(contents, key, db)
            && (key, db) !in WrittenKeys(e.writes, |contents.dbs|)
  {
    DirtyIffTouchedSinceWatch(later, watcher);
    StaysWatched(log, later, watcher, key, db);
    if (key, db) !in WrittenKeys(e.writes, |contents.dbs|) {
      StaysClean(log, later, actor, watcher, WrittenKeys(e.writes, |contents.dbs|));
    }
  }

  // ---------- runs from empty databases ----------

  const UNTRIMMED := Trimming(None, None, None)

  /** Two empty databases. */
  function Blank(): Keyspace {
    Keyspace([map[], map[]], map[])
  }

  /** Keys of database 0 are written, and then another session watches a key. */
  function WrittenThenWatched(watcher: Socket, written: seq<Bytes>, key: Bytes, db: nat): seq<Event> {
    seq(|written|, i requires 0 <= i < |written| => Touched(written[i], 0)) + [Watched(watcher, key, db)]
  }

  lemma {:induction false} TouchesAlone(log: seq<Event>, s: Socket)
    requires forall i | 0 <= i < |log| :: log[i].Touched?
    ensures Replay(log, s) == Summary({}, false, false, [])
  {
    if log != [] {
      TouchesAlone(log[..|log| - 1], s);
    }
  }

  lemma WatchesOne(watcher: Socket, written: seq<Bytes>, key: Bytes, db: nat)
    ensures
      var h := Replay(WrittenThenWatched(watcher, written, key, db), watcher);
      h.watched == {(key, db)} && !h.dirty
  {
    var log := seq(|written|, i requires 0 <= i < |written| => Touched(written[i], 0));
    TouchesAlone(log, watcher);
    ReplayStep(log, Watched(watcher, key, db), watcher);
  }

  /** The databases with one value under one key of database 0. */
  lemma Holding(key: Bytes, v: Value, reply: Reply) returns (contents: Keyspace)
    ensures contents == Commands.Outcome(Blank(), Created(key, 0, 0, v, reply))
    ensures contents == Keyspace([map[key := 0], map[]], map[0 := v])
  {
    contents := Commands.Outcome(Blank(), Created(key, 0, 0, v, reply));
    WrittenOne(Blank().dbs, Item(key, 0, Some(0)));
    assert map[] + map[0 := v] == map[0 := v];
  }

  /** RPUSH, WATCH of the key in the other database, MOVE there. */
  lemma MoveEscapesWatch(key: Bytes, values: seq<Bytes>, later: seq<Event>, mover: Socket, watcher: Socket)
    requires mover != watcher && values != []
    requires Reports(WrittenThenWatched(watcher, [key], key, 1), later, mover, {(key, 0)})
    ensures
      var contents := Commands.Outcome(Blank(), RpushEffect(Blank(), 0, key, values, 0));
      IsMissed(contents, MoveEffect(contents, 0, key, 1), later, watcher, key, 1)
  {
    var contents := Holding(key, Elems(values), Number(|values|));
    WatchesOne(watcher, [key], key, 1);
    MovedOutcome(contents, 0, key, 1);
    MissedIff(contents, MoveEffect(contents, 0, key, 1), WrittenThenWatched(watcher, [key], key, 1), later,
              mover, watcher, key, 1);
  }

  /** A key gets a value, a session watches it, and another changes the value in place without marking it. */
  lemma InPlaceEscapesWatch(
      key: Bytes, v: Value, w: Value, first: Reply, second: Reply, later: seq<Event>, actor: Socket, watcher: Socket)
    requires actor != watcher && v != w
    requires Reports(WrittenThenWatched(watcher, [key], key, 0), later, actor, {})
    ensures
      var contents := Commands.Outcome(Blank(), Created(key, 0, 0, v, first));
      && Lookup(contents, key, 0) == Some(v)
      && IsMissed(contents, InPlace(contents, key, 0, w, false, second), later, watcher, key, 0)
  {
    var contents := Holding(key, v, first);
    WatchesOne(watcher, [key], key, 0);
    InPlaceOutcome(contents, key, 0, w, false, second);
    MissedIff(contents, InPlace(contents, key, 0, w, false, second), WrittenThenWatched(watcher, [key], key, 0), later,
              actor, watcher, key, 0);
  }

  /** RPUSH, WATCH, LMPOP. */
  lemma LmpopEscapesWatch(
      key: Bytes, values: seq<Bytes>, count: nat, left: bool, later: seq<Event>, popper: Socket, watcher: Socket)
    requires popper != watcher && values != [] && count >= 1
    requires Reports(WrittenThenWatched(watcher, [key], key, 0), later, popper, {})
    ensures
      var contents := Commands.Outcome(Blank(), RpushEffect(Blank(), 0, key, values, 0));
      IsMissed(contents, LmpopEffect(contents, 0, [key], count, left), later, watcher, key, 0)
  {
    assert |AfterPop(values, count, left)| < |values|;
    InPlaceEscapesWatch(key, Elems(values), Elems(AfterPop(values, count, left)), Number(|values|), Ok, later, popper, watcher);
  }

  /** HSET, WATCH, HEXPIRE with a time that has passed. */
  lemma HexpireEscapesWatch(
      key: Bytes, field: Bytes, value: Bytes, later: seq<Event>, remover: Socket, watcher: Socket)
    requires remover != watcher
    requires Reports(WrittenThenWatched(watcher, [key], key, 0), later, remover, {})
    ensures
      var contents := Commands.Outcome(Blank(), Created(key, 0, 0, Fields(map[field := value]), Number(1)));
      IsMissed(contents, HexpireEffect(contents, 0, key, {field}, true), later, watcher, key, 0)
  {
    var f := map[field := value];
    assert field in f && field !in f - {field};
    InPlaceEscapesWatch(key, Fields(f), Fields(f - {field}), Number(1), Ok, later, remover, watcher);
  }

  /** ARMSET, WATCH, ARMSET of a slot and then of a negative index. */
  lemma ArmsetEscapesWatch(
      key: Bytes, i: int, value: Bytes, other: Bytes, bad: int, later: seq<Event>, setter: Socket, watcher: Socket)
    requires setter != watcher && i >= 0 && bad < 0 && value != other
    requires Reports(WrittenThenWatched(watcher, [key], key, 0), later, setter, {})
    ensures
      var contents := Commands.Outcome(Blank(), ArmsetEffect(Blank(), 0, key, [(i, value)], 0));
      IsMissed(contents, ArmsetEffect(contents, 0, key, [(i, other), (bad, other)], 1), later, watcher, key, 0)
  {
    var a, b := map[i := value], map[i := other];
    assert [(i, value)][1..] == [] && SlotsSet(map[], [(i, value)]) == (a, true);
    var pairs := [(i, other), (bad, other)];
    assert pairs[1..] == [(bad, other)] && a[i := other] == b && SlotsSet(a, pairs) == (b, false);
    assert a[i] != b[i];
    InPlaceEscapesWatch(key, Slots(a), Slots(b), Ok, Error, later, setter, watcher);
  }

  lemma AfterXadd(key: Bytes, id: Id, fields: Entry) returns (contents: Keyspace)
    ensures contents == Commands.Outcome(Blank(), XaddEffect(Blank(), 0, key, Explicit(id), fields, UNTRIMMED, 0))
    ensures contents == Keyspace([map[key := 0], map[]], map[0 := Entries(Added(Index([], map[]), id, fields))])
  {
    var x := Added(Index([], map[]), id, fields);
    assert Trimmed(x, UNTRIMMED) == Some(x) by {
      assert CutIndex(x, 0) == x;
    }
    contents := Holding(key, Entries(x), Ok);
  }

  /** XADD, WATCH, XDEL. */
  lemma XdelEscapesWatch(key: Bytes, id: Id, fields: Entry, later: seq<Event>, deleter: Socket, watcher: Socket)
    requires deleter != watcher
    requires Reports(WrittenThenWatched(watcher, [key], key, 0), later, deleter, {})
    ensures
      var contents := Commands.Outcome(Blank(), XaddEffect(Blank(), 0, key, Explicit(id), fields, UNTRIMMED, 0));
      IsMissed(contents, XdelEffect(contents, 0, key, [Key(id)]), later, watcher, key, 0)
  {
    var x := Added(Index([], map[]), id, fields);
    var contents := AfterXadd(key, id, fields);
    var (y, r) := DeleteAll(x, [Key(id)]);
    assert x.ids == [id] && IsStored(x.ids, [Key(id)][0]);
    DeleteAllChangesIff(x, [Key(id)]);
    InPlaceEscapesWatch(key, Entries(x), Entries(y), Ok, DeletionReply(r), later, deleter, watcher);
  }

  lemma BadTrimming(contents: Keyspace, key: Bytes, x: Index, id: Id, fields: Entry)
    requires Lookup(contents, key, 0) == Some(Entries(x)) && Accepts(x.ids, id)
    ensures XaddEffect(contents, 0, key, Explicit(id), fields, Trimming(None, Some(Malformed), None), 1) ==
            InPlace(contents, key, 0, Entries(Added(x, id, fields)), false, Error)
  {
  }

  /** XADD, WATCH, XADD with a MINID that is no id. */
  lemma XaddEscapesWatch(
      key: Bytes, id: Id, next: Id, fields: Entry, later: seq<Event>, adder: Socket, watcher: Socket)
    requires adder != watcher && IdLess(id, next)
    requires Reports(WrittenThenWatched(watcher, [key], key, 0), later, adder, {})
    ensures
      var contents := Commands.Outcome(Blank(), XaddEffect(Blank(), 0, key, Explicit(id), fields, UNTRIMMED, 0));
      var bad := Trimming(None, Some(Malformed), None);
      IsMissed(contents, XaddEffect(contents, 0, key, Explicit(next), fields, bad, 1), later, watcher, key, 0)
  {
    var x := Added(Index([], map[]), id, fields);
    var contents := AfterXadd(key, id, fields);
    var y := Added(x, next, fields);
    AddingChanges(x, next, fields);
    BadTrimming(contents, key, x, next, fields);
    InPlaceEscapesWatch(key, Entries(x), Entries(y), Ok, Error, later, adder, watcher);
  }

  /** RPUSH, WATCH, SWAPDB. */
  lemma SwapEscapesWatch(
      engine: Engine, key: Bytes, values: seq<Bytes>, later: seq<Event>, swapper: Socket, watcher: Socket)
    requires swapper != watcher && values != []
    requires Reports(WrittenThenWatched(watcher, [key], key, 0), later, swapper, {})
    ensures
      var contents := Commands.Outcome(Blank(), RpushEffect(Blank(), 0, key, values, 0));
      && TouchedBy(engine, contents, 0, Swap(0, 1)) == {}
      && Lookup(Apply(engine, contents, 0, Swap(0, 1)).0, key, 0) != Lookup(contents, key, 0)
      && (key, 0) in Replay(later, watcher).watched && !TouchedSinceWatch(later, watcher)
  {
    var contents := Holding(key, Elems(values), Number(|values|));
    WatchesOne(watcher, [key], key, 0);
    StaysClean(WrittenThenWatched(watcher, [key], key, 0), later, swapper, watcher, {});
    DirtyIffTouchedSinceWatch(later, watcher);
  }

  /** RPUSH, COPY, WATCH of the copy, RPUSH to the original. */
  lemma CopyEscapesWatch(
      key: Bytes, copy: Bytes, values: seq<Bytes>, more: seq<Bytes>, later: seq<Event>, pusher: Socket, watcher: Socket)
    requires pusher != watcher && key != copy && values != [] && more != []
    requires Reports(WrittenThenWatched(watcher, [key, copy], copy, 0), later, pusher, {(key, 0)})
    ensures
      var first := Commands.Outcome(Blank(), RpushEffect(Blank(), 0, key, values, 0));
      var contents := Commands.Outcome(first, CopyEffect(first, 0, key, copy, 0, false));
      IsMissed(contents, RpushEffect(contents, 0, key, more, 1), later, watcher, copy, 0)
  {
    var first := Holding(key, Elems(values), Number(|values|));
    var contents := Commands.Outcome(first, CopyEffect(first, 0, key, copy, 0, false));
    CopySharesObject(first, 0, key, copy, 0, false);
    WatchesOne(watcher, [key, copy], copy, 0);
    assert values + more != values;
    InPlaceOutcome(contents, key, 0, Elems(values + more), true, Number(|values| + |more|));
    MissedIff(contents, RpushEffect(contents, 0, key, more, 1), WrittenThenWatched(watcher, [key, copy], copy, 0), later,
              pusher, watcher, copy, 0);
  }
}
