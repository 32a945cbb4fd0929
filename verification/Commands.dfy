/**
 What commands do to the databases. A database maps keys to objects; commands
 change objects in place, store them under keys, and write back what they
 marked modified. Only the last of these is reported to watching sessions.
 */
module Commands {
  import opened Bytes
  import opened Options
  import opened Streams

  /** The identity of an object. Two keys that hold the same one see each other's changes. */
  type Ref = nat

  datatype Value =
    | Text(text: Bytes)
    | Elems(elems: seq<Bytes>)
    | Entries(index: Index)
    | Fields(fields: map<Bytes, Bytes>)
    | Slots(slots: map<int, Bytes>)
    | Other(other: Bytes)

  type Dict = map<Bytes, Ref>

  datatype Keyspace = Keyspace(dbs: seq<Dict>, heap: map<Ref, Value>)

  datatype Reply = Ok | Queued | Nil | Error | Number(n: int) | Answer(r: Bytes) | Array(rs: seq<Reply>)

  /** A key of a database and the object to be stored there, or none. */
  datatype Item = Item(key: Bytes, db: nat, value: Option<Ref>)

  /**
   The outcome of a command's function: the objects it created or changed in
   place, what it stored directly, the items it marked modified, and its reply.
   */
  datatype Effect = Effect(changes: map<Ref, Value>, store: Option<Item>, writes: seq<Item>, reply: Reply)

  /** Commands that may be queued; an ordinary one is its name and arguments. */
  datatype Command = Data(text: seq<Bytes>) | Flush(all: bool) | Swap(i: nat, j: nat) | Select(db: nat) | Unwatch

  /** What the ordinary commands do, given the databases and the selected one: any function. */
  type Engine = (seq<Bytes>, Keyspace, nat) -> Effect

  // ---------- databases ----------

  function Assigned(d: Dict, key: Bytes, value: Option<Ref>): Dict {
    if value.Some? then d[key := value.value] else d - {key}
  }

  /** An item stored in its database, if there is such a database. */
  function Put(dbs: seq<Dict>, item: Item): (r: seq<Dict>)
    ensures |r| == |dbs|
  {
    if item.db < |dbs| then dbs[item.db := Assigned(dbs[item.db], item.key, item.value)] else dbs
  }

  function PutDirectly(dbs: seq<Dict>, store: Option<Item>): (r: seq<Dict>)
    ensures |r| == |dbs|
  {
    if store.Some? then Put(dbs, store.value) else dbs
  }

  function Written(dbs: seq<Dict>, writes: seq<Item>): (r: seq<Dict>)
    ensures |r| == |dbs|
  {
    if writes == [] then dbs else Put(Written(dbs, writes[..|writes| - 1]), writes[|writes| - 1])
  }

  /** The contents of two databases exchanged. */
  function Swapped(dbs: seq<Dict>, i: nat, j: nat): (r: seq<Dict>)
    requires i < |dbs| && j < |dbs|
    ensures |r| == |dbs|
  {
    dbs[i := dbs[j]][j := dbs[i]]
  }

  /** The first n databases cleared. */
  function Emptied(dbs: seq<Dict>, n: nat): (r: seq<Dict>)
    ensures |r| == |dbs|
  {
    seq(|dbs|, i requires 0 <= i < |dbs| => if i < n then map[] else dbs[i])
  }

  lemma EmptiedStep(dbs: seq<Dict>, n: nat)
    requires n < |dbs|
    ensures Emptied(dbs, n)[n] == dbs[n]
    ensures Emptied(dbs, n + 1) == Emptied(dbs, n)[n := map[]]
  {
  }

  // ---------- commands ----------

  /** The databases after an ordinary command. */
  function Outcome(contents: Keyspace, e: Effect): Keyspace {
    Keyspace(Written(PutDirectly(contents.dbs, e.store), e.writes), contents.heap + e.changes)
  }

  /** The databases, the selected one, and the reply, after a command. */
  function Apply(engine: Engine, contents: Keyspace, current: nat, cmd: Command): (Keyspace, nat, Reply)
    requires current < |contents.dbs|
  {
    var dbs := contents.dbs;
    match cmd
    case Data(text) =>
      var e := engine(text, contents, current);
      (Outcome(contents, e), current, e.reply)
    case Flush(all) =>
      (contents.(dbs := if all then Emptied(dbs, |dbs|) else dbs[current := map[]]), current, Ok)
    case Swap(i, j) =>
      if i < |dbs| && j < |dbs| then (contents.(dbs := Swapped(dbs, i, j)), current, Ok) else (contents, current, Error)
    case Select(db) => if db < |dbs| then (contents, db, Ok) else (contents, current, Error)
    case Unwatch => (contents, current, Ok)
  }

  /** The commands run one after the other, in one step. */
  function ApplyAll(engine: Engine, contents: Keyspace, current: nat, cmds: seq<Command>): (r: (Keyspace, nat, seq<Reply>))
    requires current < |contents.dbs|
    ensures |r.0.dbs| == |contents.dbs| && r.1 < |contents.dbs| && |r.2| == |cmds|
  {
    if cmds == [] then (contents, current, [])
    else
      var (c, n, rs) := ApplyAll(engine, contents, current, cmds[..|cmds| - 1]);
      var (c', n', r) := Apply(engine, c, n, cmds[|cmds| - 1]);
      (c', n', rs + [r])
  }

  // ---------- what is reported ----------

  /** The keys a command reports as modified: those it writes back, or those stored when a database is cleared. */
  function TouchedBy(engine: Engine, contents: Keyspace, current: nat, cmd: Command): set<(Bytes, nat)>
    requires current < |contents.dbs|
  {
    var dbs := contents.dbs;
    match cmd
    case Data(text) => WrittenKeys(engine(text, contents, current).writes, |dbs|)
    case Flush(all) => if all then StoredKeys(dbs, |dbs|) else KeysOf(dbs[current].Keys, current)
    case _ => {}
  }

  /** The keys reported by commands run one after the other. */
  function TouchedByAll(engine: Engine, contents: Keyspace, current: nat, cmds: seq<Command>): set<(Bytes, nat)>
    requires current < |contents.dbs|
  {
    if cmds == [] then {}
    else
      var init := cmds[..|cmds| - 1];
      var before := ApplyAll(engine, contents, current, init);
      TouchedByAll(engine, contents, current, init) + TouchedBy(engine, before.0, before.1, cmds[|cmds| - 1])
  }

  /** The keys written back, in the first n databases. */
  function WrittenKeys(writes: seq<Item>, n: nat): set<(Bytes, nat)> {
    set w | w in writes && w.db < n :: (w.key, w.db)
  }

  lemma {:induction false} WrittenStep(dbs: seq<Dict>, writes: seq<Item>, n: nat)
    requires n < |writes|
    ensures Written(dbs, writes[..n + 1]) == Put(Written(dbs, writes[..n]), writes[n])
    ensures WrittenKeys(writes[..n + 1], |dbs|) == WrittenKeys(writes[..n], |dbs|) + WrittenKeys([writes[n]], |dbs|)
  {
    assert writes[..n + 1] == writes[..n] + [writes[n]];
    WrittenLast(dbs, writes[..n], writes[n]);
    KeysOfMoreWrites(writes[..n], [writes[n]], |dbs|);
  }

  lemma WrittenLast(dbs: seq<Dict>, writes: seq<Item>, last: Item)
    ensures Written(dbs, writes + [last]) == Put(Written(dbs, writes), last)
  {
    assert (writes + [last])[..|writes|] == writes;
  }

  lemma WrittenOne(dbs: seq<Dict>, item: Item)
    ensures Written(dbs, [item]) == Put(dbs, item)
    ensures WrittenKeys([item], |dbs|) == if item.db < |dbs| then {(item.key, item.db)} else {}
  {
    assert [item][..0] == [] && item in [item];
  }

  lemma KeysOfMoreWrites(a: seq<Item>, b: seq<Item>, n: nat)
    ensures WrittenKeys(a + b, n) == WrittenKeys(a, n) + WrittenKeys(b, n)
  {
    forall key, db ensures (key, db) in WrittenKeys(a + b, n) <==> (key, db) in WrittenKeys(a, n) + WrittenKeys(b, n) {
    }
  }

  function KeysOf(keys: set<Bytes>, d: nat): set<(Bytes, nat)> {
    set k | k in keys :: (k, d)
  }

  lemma OneMoreKey(keys: set<Bytes>, rest: set<Bytes>, key: Bytes, d: nat)
    requires rest <= keys && key in rest
    ensures KeysOf(keys - (rest - {key}), d) == KeysOf(keys - rest, d) + {(key, d)}
  {
  }

  /** The stored keys of the first n databases. */
  function StoredKeys(dbs: seq<Dict>, n: nat): set<(Bytes, nat)>
    requires n <= |dbs|
  {
    set d: nat, k | d < n && k in dbs[d] :: (k, d)
  }

  lemma StoredKeysStep(dbs: seq<Dict>, n: nat)
    requires n < |dbs|
    ensures StoredKeys(dbs, n + 1) == StoredKeys(dbs, n) + KeysOf(dbs[n].Keys, n)
  {
  }

  // ---------- what is not ----------

  /** The keys that hold an object which a command changes in place. */
  function ChangedInPlace(contents: Keyspace, changes: map<Ref, Value>): set<(Bytes, nat)> {
    set d: nat, k |
      d < |contents.dbs| && k in contents.dbs[d] && Differs(contents.heap, changes, contents.dbs[d][k]) :: (k, d)
  }

  predicate Differs(heap: map<Ref, Value>, changes: map<Ref, Value>, ref: Ref) {
    ref in changes && (ref in heap ==> heap[ref] != changes[ref])
  }

  /**
   The keys a command may change without reporting them: the one it stores
   directly, those whose objects it changes in place, and those exchanged,
   unless it writes them back.
   */
  function SilentIn(engine: Engine, contents: Keyspace, current: nat, cmd: Command): set<(Bytes, nat)>
    requires current < |contents.dbs|
  {
    var dbs := contents.dbs;
    match cmd
    case Data(text) => SilentKeys(contents, engine(text, contents, current))
    case Swap(i, j) =>
      if i < |dbs| && j < |dbs| then KeysOf(dbs[i].Keys + dbs[j].Keys, i) + KeysOf(dbs[i].Keys + dbs[j].Keys, j) else {}
    case _ => {}
  }

  function SilentKeys(contents: Keyspace, e: Effect): set<(Bytes, nat)> {
    StoredDirectly(e, |contents.dbs|) + ChangedInPlace(contents, e.changes) - WrittenKeys(e.writes, |contents.dbs|)
  }

  function StoredDirectly(e: Effect, n: nat): set<(Bytes, nat)> {
    if e.store.Some? then WrittenKeys([e.store.value], n) else {}
  }

  function SilentInAll(engine: Engine, contents: Keyspace, current: nat, cmds: seq<Command>): set<(Bytes, nat)>
    requires current < |contents.dbs|
  {
    if cmds == [] then {}
    else
      var init := cmds[..|cmds| - 1];
      var before := ApplyAll(engine, contents, current, init);
      SilentInAll(engine, contents, current, init) + SilentIn(engine, before.0, before.1, cmds[|cmds| - 1])
  }

  // ---------- what changes ----------

  /** The object a key holds. */
  function Bound(dbs: seq<Dict>, key: Bytes, db: nat): Option<Ref> {
    if db < |dbs| && key in dbs[db] then Some(dbs[db][key]) else None
  }

  /** The value of a key. */
  function Lookup(contents: Keyspace, key: Bytes, db: nat): Option<Value> {
    var ref := Bound(contents.dbs, key, db);
    if ref.Some? && ref.value in contents.heap then Some(contents.heap[ref.value]) else None
  }

  /** Only the given keys are bound to another object. */
  ghost predicate ReboundWithin(before: seq<Dict>, after: seq<Dict>, keys: set<(Bytes, nat)>) {
    forall k: Bytes, d: nat | Bound(after, k, d) != Bound(before, k, d) :: (k, d) in keys
  }

  /** Only the given keys have another value. */
  ghost predicate ChangedWithin(before: Keyspace, after: Keyspace, keys: set<(Bytes, nat)>) {
    forall k: Bytes, d: nat | Lookup(after, k, d) != Lookup(before, k, d) :: (k, d) in keys
  }

  lemma PutRebinds(dbs: seq<Dict>, item: Item)
    ensures ReboundWithin(dbs, Put(dbs, item), WrittenKeys([item], |dbs|))
  {
    WrittenOne(dbs, item);
  }

  lemma {:induction false} WrittenRebinds(dbs: seq<Dict>, writes: seq<Item>)
    ensures ReboundWithin(dbs, Written(dbs, writes), WrittenKeys(writes, |dbs|))
  {
    if writes != [] {
      var n := |writes| - 1;
      WrittenRebinds(dbs, writes[..n]);
      WrittenStep(dbs, writes, n);
      assert writes[..n + 1] == writes;
      PutRebinds(Written(dbs, writes[..n]), writes[n]);
    }
  }

  lemma EmptiedRebinds(dbs: seq<Dict>)
    ensures ReboundWithin(dbs, Emptied(dbs, |dbs|), StoredKeys(dbs, |dbs|))
  {
  }

  lemma ClearedRebinds(dbs: seq<Dict>, d: nat)
    requires d < |dbs|
    ensures ReboundWithin(dbs, dbs[d := map[]], KeysOf(dbs[d].Keys, d))
  {
  }

  lemma SwappedRebinds(dbs: seq<Dict>, i: nat, j: nat)
    requires i < |dbs| && j < |dbs|
    ensures
      var keys := dbs[i].Keys + dbs[j].Keys;
      ReboundWithin(dbs, Swapped(dbs, i, j), KeysOf(keys, i) + KeysOf(keys, j))
  {
  }

  /** A value changes only if the key is bound anew or its object changes. */
  lemma ReboundOrChanged(contents: Keyspace, dbs: seq<Dict>, changes: map<Ref, Value>, keys: set<(Bytes, nat)>)
    requires ReboundWithin(contents.dbs, dbs, keys)
    ensures ChangedWithin(contents, Keyspace(dbs, contents.heap + changes), keys + ChangedInPlace(contents, changes))
  {
    var after := Keyspace(dbs, contents.heap + changes);
    forall k: Bytes, d: nat | Lookup(after, k, d) != Lookup(contents, k, d)
      ensures (k, d) in keys + ChangedInPlace(contents, changes)
    {
      if Bound(dbs, k, d) == Bound(contents.dbs, k, d) {
        assert Differs(contents.heap, changes, contents.dbs[d][k]);
      }
    }
  }

  lemma ReboundOnly(contents: Keyspace, dbs: seq<Dict>, keys: set<(Bytes, nat)>)
    requires ReboundWithin(contents.dbs, dbs, keys)
    ensures ChangedWithin(contents, contents.(dbs := dbs), keys)
  {
  }

  lemma DataRebinds(dbs: seq<Dict>, e: Effect)
    ensures ReboundWithin(dbs, Written(PutDirectly(dbs, e.store), e.writes),
                          StoredDirectly(e, |dbs|) + WrittenKeys(e.writes, |dbs|))
  {
    if e.store.Some? {
      PutRebinds(dbs, e.store.value);
    }
    WrittenRebinds(PutDirectly(dbs, e.store), e.writes);
  }

  lemma DataChanges(contents: Keyspace, e: Effect)
    ensures ChangedWithin(contents, Outcome(contents, e), WrittenKeys(e.writes, |contents.dbs|) + SilentKeys(contents, e))
  {
    DataRebinds(contents.dbs, e);
    ReboundOrChanged(contents, Outcome(contents, e).dbs, e.changes,
                     StoredDirectly(e, |contents.dbs|) + WrittenKeys(e.writes, |contents.dbs|));
  }

  /** What a command changes, it reports or changes silently. */
  lemma CommandChanges(engine: Engine, contents: Keyspace, current: nat, cmd: Command)
    requires current < |contents.dbs|
    ensures ChangedWithin(contents, Apply(engine, contents, current, cmd).0,
                          TouchedBy(engine, contents, current, cmd) + SilentIn(engine, contents, current, cmd))
  {
    var dbs := contents.dbs;
    match cmd
    case Data(text) => DataChanges(contents, engine(text, contents, current));
    case Flush(all) => FlushChanges(contents, current, all);
    case Swap(i, j) =>
      if i < |dbs| && j < |dbs| {
        SwappedRebinds(dbs, i, j);
        ReboundOnly(contents, Swapped(dbs, i, j), SilentIn(engine, contents, current, cmd));
      }
    case Select(db) =>
    case Unwatch =>
  }

  lemma FlushChanges(contents: Keyspace, current: nat, all: bool)
    requires current < |contents.dbs|
    ensures
      var dbs := contents.dbs;
      if all then ChangedWithin(contents, contents.(dbs := Emptied(dbs, |dbs|)), StoredKeys(dbs, |dbs|))
      else ChangedWithin(contents, contents.(dbs := dbs[current := map[]]), KeysOf(dbs[current].Keys, current))
  {
    var dbs := contents.dbs;
    if all {
      EmptiedRebinds(dbs);
      ReboundOnly(contents, Emptied(dbs, |dbs|), StoredKeys(dbs, |dbs|));
    } else {
      ClearedRebinds(dbs, current);
      ReboundOnly(contents, dbs[current := map[]], KeysOf(dbs[current].Keys, current));
    }
  }

  lemma {:induction false} QueueChanges(engine: Engine, contents: Keyspace, current: nat, cmds: seq<Command>)
    requires current < |contents.dbs|
    ensures ChangedWithin(contents, ApplyAll(engine, contents, current, cmds).0,
                          TouchedByAll(engine, contents, current, cmds) + SilentInAll(engine, contents, current, cmds))
  {
    if cmds != [] {
      var init := cmds[..|cmds| - 1];
      QueueChanges(engine, contents, current, init);
      var before := ApplyAll(engine, contents, current, init);
      CommandChanges(engine, before.0, before.1, cmds[|cmds| - 1]);
    }
  }

  // ---------- what each command does ----------

  /** The item that was stored last under the key. */
  ghost predicate IsLastWrite(writes: seq<Item>, i: nat, k: Bytes, d: nat) {
    && i < |writes| && writes[i].key == k && writes[i].db == d
    && forall j | i < j < |writes| :: !(writes[j].key == k && writes[j].db == d)
  }

  lemma PutBinds(dbs: seq<Dict>, item: Item, k: Bytes, d: nat)
    requires d < |dbs|
    ensures Bound(Put(dbs, item), k, d) == if item.key == k && item.db == d then item.value else Bound(dbs, k, d)
  {
  }

  /** After several items were stored, a key holds what was stored last under it. */
  lemma {:induction false} WrittenBinds(dbs: seq<Dict>, writes: seq<Item>, i: nat, k: Bytes, d: nat)
    requires d < |dbs| && IsLastWrite(writes, i, k, d)
    ensures Bound(Written(dbs, writes), k, d) == writes[i].value
    decreases |writes|
  {
    var n := |writes| - 1;
    var init := writes[..n];
    PutBinds(Written(dbs, init), writes[n], k, d);
    if i < n {
      assert !(writes[n].key == k && writes[n].db == d);
      WrittenBinds(dbs, init, i, k, d);
    }
  }

  /** If nothing was, it holds what it held. */
  lemma {:induction false} WrittenLeaves(dbs: seq<Dict>, writes: seq<Item>, k: Bytes, d: nat)
    requires d < |dbs| && forall i | 0 <= i < |writes| :: !(writes[i].key == k && writes[i].db == d)
    ensures Bound(Written(dbs, writes), k, d) == Bound(dbs, k, d)
  {
    if writes != [] {
      var n := |writes| - 1;
      WrittenLeaves(dbs, writes[..n], k, d);
      PutBinds(Written(dbs, writes[..n]), writes[n], k, d);
    }
  }

  /**
   An ordinary command: the objects are those it created or changed, and the
   others as before; a key holds what was written back last under it, or else
   what was stored directly, or else what it held.
   */
  lemma DataResult(engine: Engine, contents: Keyspace, current: nat, text: seq<Bytes>, k: Bytes, d: nat, ref: Ref)
    requires current < |contents.dbs| && d < |contents.dbs|
    ensures
      var e := engine(text, contents, current);
      var (after, selected, reply) := Apply(engine, contents, current, Data(text));
      && selected == current && reply == e.reply && |after.dbs| == |contents.dbs|
      && (ref in after.heap <==> ref in e.changes || ref in contents.heap)
      && (ref in after.heap ==> after.heap[ref] == if ref in e.changes then e.changes[ref] else contents.heap[ref])
      && (forall i: nat | IsLastWrite(e.writes, i, k, d) :: Bound(after.dbs, k, d) == e.writes[i].value)
      && ((forall i | 0 <= i < |e.writes| :: !(e.writes[i].key == k && e.writes[i].db == d)) ==>
            Bound(after.dbs, k, d) ==
              if e.store.Some? && e.store.value.key == k && e.store.value.db == d then e.store.value.value
              else Bound(contents.dbs, k, d))
  {
    var e := engine(text, contents, current);
    var dbs := PutDirectly(contents.dbs, e.store);
    forall i: nat | IsLastWrite(e.writes, i, k, d) ensures Bound(Written(dbs, e.writes), k, d) == e.writes[i].value {
      WrittenBinds(dbs, e.writes, i, k, d);
    }
    if forall i | 0 <= i < |e.writes| :: !(e.writes[i].key == k && e.writes[i].db == d) {
      WrittenLeaves(dbs, e.writes, k, d);
    }
  }

  /**
   FLUSHDB empties the selected database and FLUSHALL every one, SWAPDB lets
   two databases change places, and SELECT changes the session's database; an
   index that is too large is an error without effect.
   */
  lemma OtherResult(engine: Engine, contents: Keyspace, current: nat, cmd: Command, k: Bytes, d: nat)
    requires current < |contents.dbs| && d < |contents.dbs| && !cmd.Data?
    ensures
      var n := |contents.dbs|;
      var (after, selected, reply) := Apply(engine, contents, current, cmd);
      && after.heap == contents.heap && |after.dbs| == n
      && selected == (if cmd.Select? && cmd.db < n then cmd.db else current)
      && reply == (if (cmd.Select? && cmd.db >= n) || (cmd.Swap? && (cmd.i >= n || cmd.j >= n)) then Error else Ok)
      && Bound(after.dbs, k, d) ==
           if cmd.Flush? && (cmd.all || d == current) then None
           else if cmd.Swap? && cmd.i < n && cmd.j < n && d == cmd.i then Bound(contents.dbs, k, cmd.j)
           else if cmd.Swap? && cmd.i < n && cmd.j < n && d == cmd.j then Bound(contents.dbs, k, cmd.i)
           else Bound(contents.dbs, k, d)
  {
  }

  /** A command reports the keys it writes back, and the keys stored in a database it clears, and no others. */
  lemma TouchedIff(engine: Engine, contents: Keyspace, current: nat, cmd: Command, k: Bytes, d: nat)
    requires current < |contents.dbs|
    ensures (k, d) in TouchedBy(engine, contents, current, cmd) <==>
      match cmd
      case Data(text) => d < |contents.dbs| && exists w :: w in engine(text, contents, current).writes && w.key == k && w.db == d
      case Flush(all) => Bound(contents.dbs, k, d).Some? && (all || d == current)
      case _ => false
  {
  }

  /**
   The databases and the selected one before each command and after the last,
   and the reply to each: every command finds what the one before it left.
   */
  ghost predicate IsChain(engine: Engine, cmds: seq<Command>, states: seq<(Keyspace, nat)>, replies: seq<Reply>) {
    && |states| == |cmds| + 1 && |replies| == |cmds|
    && forall i | 0 <= i < |cmds| ::
         && states[i].1 < |states[i].0.dbs|
         && Apply(engine, states[i].0, states[i].1, cmds[i]) == (states[i + 1].0, states[i + 1].1, replies[i])
  }

  /** One after the other, the commands lead from the one state to the other, each with its reply. */
  ghost predicate RunInOrder(
      engine: Engine, contents: Keyspace, current: nat, cmds: seq<Command>, after: Keyspace, selected: nat, replies: seq<Reply>)
  {
    exists states ::
      IsChain(engine, cmds, states, replies) && states[0] == (contents, current) && states[|cmds|] == (after, selected)
  }

  lemma ChainAppend(
      engine: Engine, cmds: seq<Command>, states: seq<(Keyspace, nat)>, replies: seq<Reply>,
      cmd: Command, after: (Keyspace, nat), reply: Reply)
    requires IsChain(engine, cmds, states, replies) && states[|cmds|].1 < |states[|cmds|].0.dbs|
    requires Apply(engine, states[|cmds|].0, states[|cmds|].1, cmd) == (after.0, after.1, reply)
    ensures IsChain(engine, cmds + [cmd], states + [after], replies + [reply])
  {
  }

  /** Running commands together is running them in order; they touch together what they touch one by one. */
  lemma {:induction false} ApplyAllIsChain(engine: Engine, contents: Keyspace, current: nat, cmds: seq<Command>)
    returns (states: seq<(Keyspace, nat)>)
    requires current < |contents.dbs|
    ensures
      var (after, selected, replies) := ApplyAll(engine, contents, current, cmds);
      && IsChain(engine, cmds, states, replies) && states[0] == (contents, current) && states[|cmds|] == (after, selected)
      && forall key ::
           key in TouchedByAll(engine, contents, current, cmds) <==>
             exists i | 0 <= i < |cmds| :: key in TouchedBy(engine, states[i].0, states[i].1, cmds[i])
  {
    if cmds == [] {
      states := [(contents, current)];
    } else {
      var init, cmd := cmds[..|cmds| - 1], cmds[|cmds| - 1];
      var before := ApplyAllIsChain(engine, contents, current, init);
      var (c, n, rs) := ApplyAll(engine, contents, current, init);
      var (c', n', r) := Apply(engine, c, n, cmd);
      ChainAppend(engine, init, before, rs, cmd, (c', n'), r);
      states := before + [(c', n')];
      assert cmds == init + [cmd];
    }
  }

  /** A chain leads where the commands lead together. */
  lemma {:induction false} ChainIsApplyAll(engine: Engine, cmds: seq<Command>, states: seq<(Keyspace, nat)>, replies: seq<Reply>)
    requires IsChain(engine, cmds, states, replies) && states[0].1 < |states[0].0.dbs|
    ensures ApplyAll(engine, states[0].0, states[0].1, cmds) == (states[|cmds|].0, states[|cmds|].1, replies)
    decreases |cmds|
  {
    if cmds != [] {
      var n := |cmds| - 1;
      ChainIsApplyAll(engine, cmds[..n], states[..n + 1], replies[..n]);
      assert replies == replies[..n] + [replies[n]];
    }
  }

  lemma OrderIsApplyAll(
      engine: Engine, contents: Keyspace, current: nat, cmds: seq<Command>, after: Keyspace, selected: nat, replies: seq<Reply>)
    requires current < |contents.dbs| && RunInOrder(engine, contents, current, cmds, after, selected, replies)
    ensures ApplyAll(engine, contents, current, cmds) == (after, selected, replies)
  {
    var states :|
      IsChain(engine, cmds, states, replies) && states[0] == (contents, current) && states[|cmds|] == (after, selected);
    ChainIsApplyAll(engine, cmds, states, replies);
  }
}
