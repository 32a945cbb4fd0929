/**
 Client sessions on a shared server: queueing between MULTI and EXEC, and
 optimistic locking with WATCH. Every request is one step under the server's
 lock; the server keeps a history of what happened, against which the flags
 and tables of the sessions are proved right.
 */
module Transactions {
  import opened Bytes
  import opened Commands
  import opened Options

  /** What a client may send; Rejected stands for an unknown command, a denied one, or a wrong number of arguments. */
  datatype Request =
    | Do(cmd: Command)
    | Watch(keys: seq<Bytes>)
    | Multi
    | Exec
    | Discard
    | Rejected(aborts: bool)  // aborts: an EXEC with an error that starts with ERR

  // ---------- history ----------

  datatype Event =
    | Watched(s: Socket, key: Bytes, db: nat)
    | Touched(key: Bytes, db: nat)  // a modified key is written back, or a stored key is cleared
    | Cleared(s: Socket)            // a session's watches are cleared
    | Began(s: Socket)
    | Enqueued(s: Socket, cmd: Command)
    | Erred(s: Socket)

  /** What the history says about one session. */
  datatype Summary = Summary(watched: set<(Bytes, nat)>, dirty: bool, erred: bool, queue: seq<Command>)

  ghost function Noted(h: Summary, e: Event, s: Socket): Summary {
    match e
    case Watched(t, key, db) => if t == s then h.(watched := h.watched + {(key, db)}) else h
    case Touched(key, db) => h.(dirty := h.dirty || (key, db) in h.watched)
    case Cleared(t) => if t == s then h.(watched := {}, dirty := false) else h
    case Began(t) => if t == s then h.(erred := false, queue := []) else h
    case Enqueued(t, cmd) => if t == s then h.(queue := h.queue + [cmd]) else h
    case Erred(t) => if t == s then h.(erred := true) else h
  }

  ghost function Replay(log: seq<Event>, s: Socket): Summary {
    if log == [] then Summary({}, false, false, []) else Noted(Replay(log[..|log| - 1], s), log[|log| - 1], s)
  }

  lemma ReplayStep(log: seq<Event>, e: Event, s: Socket)
    ensures Replay(log + [e], s) == Noted(Replay(log, s), e, s)
  {
  }

  /** The history grew by touches of exactly the given keys, in some order, and by clearings of s. */
  ghost predicate Reports(before: seq<Event>, after: seq<Event>, s: Socket, touched: set<(Bytes, nat)>) {
    && before <= after
    && (forall i | |before| <= i < |after| ::
          after[i] == Cleared(s) || (after[i].Touched? && (after[i].key, after[i].db) in touched))
    && (forall k, d | (k, d) in touched :: Touched(k, d) in after[|before|..])
  }

  /** Every key that changed is reported in what the history gained, or is one of the silent ones. */
  ghost predicate Noticed(before: Keyspace, after: Keyspace, log: seq<Event>, later: seq<Event>, silent: set<(Bytes, nat)>)
  {
    && log <= later
    && forall k: Bytes, d: nat | Lookup(after, k, d) != Lookup(before, k, d) ::
         (k, d) in silent || Touched(k, d) in later[|log|..]
  }

  lemma ReportedIsNoticed(
      before: Keyspace, after: Keyspace, log: seq<Event>, start: seq<Event>, later: seq<Event>, s: Socket,
      touched: set<(Bytes, nat)>, silent: set<(Bytes, nat)>)
    requires log <= start && Reports(start, later, s, touched) && ChangedWithin(before, after, touched + silent)
    ensures Noticed(before, after, log, later, silent)
  {
    assert later[|start|..] == later[|log|..][|start| - |log|..];
  }

  lemma CommandIsNoticed(
      engine: Engine, contents: Keyspace, current: nat, cmd: Command, log: seq<Event>, later: seq<Event>, s: Socket)
    requires current < |contents.dbs| && Reports(log, later, s, TouchedBy(engine, contents, current, cmd))
    ensures Noticed(contents, Apply(engine, contents, current, cmd).0, log, later, SilentIn(engine, contents, current, cmd))
  {
    CommandChanges(engine, contents, current, cmd);
    ReportedIsNoticed(contents, Apply(engine, contents, current, cmd).0, log, log, later, s,
                      TouchedBy(engine, contents, current, cmd), SilentIn(engine, contents, current, cmd));
  }

  lemma QueueIsNoticed(
      engine: Engine, contents: Keyspace, current: nat, cmds: seq<Command>, after: Keyspace, selected: nat,
      replies: seq<Reply>, log: seq<Event>, later: seq<Event>, s: Socket)
    requires current < |contents.dbs| && Reports(log + [Cleared(s)], later, s, TouchedByAll(engine, contents, current, cmds))
    requires RunInOrder(engine, contents, current, cmds, after, selected, replies)
    ensures Noticed(contents, after, log, later, SilentInAll(engine, contents, current, cmds))
  {
    QueueChanges(engine, contents, current, cmds);
    OrderIsApplyAll(engine, contents, current, cmds, after, selected, replies);
    ReportedIsNoticed(contents, after, log, log + [Cleared(s)], later, s,
                      TouchedByAll(engine, contents, current, cmds), SilentInAll(engine, contents, current, cmds));
  }

  /** The reply to a request that runs no command, and the history after it. */
  ghost function Answered(log: seq<Event>, s: Socket, db: nat, open: bool, request: Request): (Reply, seq<Event>)
    requires !request.Do? && !request.Exec?
  {
    match request
    case Watch(keys) => if open then (Error, log) else (Ok, log + WatchEvents(s, keys, db))
    case Multi => if open then (Error, log) else (Ok, log + [Began(s)])
    case Discard => if open then (Ok, log + [Cleared(s)]) else (Error, log)
    case Rejected(aborts) =>
      var failed := if open then log + [Erred(s)] else log;
      (Error, if aborts then failed + [Cleared(s)] else failed)
  }

  /** Whether the session has an open transaction after a request. */
  predicate StaysOpen(open: bool, request: Request) {
    match request
    case Multi => true
    case Exec => false
    case Discard => false
    case Rejected(aborts) => open && !aborts
    case _ => open
  }

  /** The keys a request may change without reporting them. */
  function SilentInRequest(
      engine: Engine, contents: Keyspace, current: nat, request: Request, open: bool, queue: seq<Command>)
    : set<(Bytes, nat)>
    requires current < |contents.dbs|
  {
    match request
    case Do(cmd) => if open then {} else SilentIn(engine, contents, current, cmd)
    case Exec => SilentInAll(engine, contents, current, queue)
    case _ => {}
  }

  lemma ReportsJoin(a: seq<Event>, b: seq<Event>, c: seq<Event>, s: Socket, t: set<(Bytes, nat)>, u: set<(Bytes, nat)>)
    requires Reports(a, b, s, t) && Reports(b, c, s, u)
    ensures Reports(a, c, s, t + u)
  {
  }

  /** A watch that is still held: the session has not cleared its watches since. */
  ghost predicate Held(log: seq<Event>, i: int, s: Socket) {
    0 <= i < |log| && log[i].Watched? && log[i].s == s && forall m | i < m < |log| :: log[m] != Cleared(s)
  }

  lemma {:induction false} WatchedIffHeld(log: seq<Event>, s: Socket, key: Bytes, db: nat)
    ensures (key, db) in Replay(log, s).watched <==> exists i :: Held(log, i, s) && log[i] == Watched(s, key, db)
  {
    if log != [] {
      var n := |log| - 1;
      WatchedIffHeld(log[..n], s, key, db);
      if (key, db) in Replay(log, s).watched {
        if log[n] == Watched(s, key, db) {
          assert Held(log, n, s);
        } else {
          var i :| Held(log[..n], i, s) && log[i] == Watched(s, key, db);
          assert Held(log, i, s);
        }
      }
      if i :| Held(log, i, s) && log[i] == Watched(s, key, db) {
        assert i < n ==> Held(log[..n], i, s);
      }
    }
  }

  /** Some key was modified after the session watched it, and the session has not cleared its watches since watching it. */
  ghost predicate TouchedSinceWatch(log: seq<Event>, s: Socket) {
    exists i, j | 0 <= i < j < |log| :: Held(log, i, s) && log[j] == Touched(log[i].key, log[i].db)
  }

  lemma DirtyHasCause(log: seq<Event>, s: Socket)
    requires log != [] && Replay(log, s).dirty
    requires var before := log[..|log| - 1]; Replay(before, s).dirty ==> TouchedSinceWatch(before, s)
    ensures TouchedSinceWatch(log, s)
  {
    var n := |log| - 1;
    var before := log[..n];
    if Replay(before, s).dirty {
      var i, j :| 0 <= i < j < n && Held(before, i, s) && before[j] == Touched(before[i].key, before[i].db);
      assert Held(log, i, s) && log[j] == Touched(log[i].key, log[i].db);
    } else {
      WatchedIffHeld(before, s, log[n].key, log[n].db);
      var i :| Held(before, i, s) && before[i] == Watched(s, log[n].key, log[n].db);
      assert Held(log, i, s) && log[n] == Touched(log[i].key, log[i].db);
    }
  }

  /** The history calls a session dirty exactly when a key was touched after the session watched it, with no clearing since. */
  lemma {:induction false} DirtyIffTouchedSinceWatch(log: seq<Event>, s: Socket)
    ensures Replay(log, s).dirty <==> TouchedSinceWatch(log, s)
  {
    if log != [] {
      var n := |log| - 1;
      var before := log[..n];
      DirtyIffTouchedSinceWatch(before, s);
      if Replay(log, s).dirty {
        DirtyHasCause(log, s);
      }
      if i, j :| 0 <= i < j < |log| && Held(log, i, s) && log[j] == Touched(log[i].key, log[i].db) {
        assert Held(before, i, s);
        if j < n {
          assert before[j] == Touched(before[i].key, before[i].db);
        } else {
          WatchedIffHeld(before, s, log[i].key, log[i].db);
        }
      }
    }
  }

  /** The commands the session enqueued at position n or later. */
  ghost function EnqueuedFrom(log: seq<Event>, n: nat, s: Socket): seq<Command> {
    if |log| <= n then []
    else
      var e := log[|log| - 1];
      EnqueuedFrom(log[..|log| - 1], n, s) + if e.Enqueued? && e.s == s then [e.cmd] else []
  }

  /** Since MULTI: the queue is what the session enqueued, in order, and it has erred exactly when a request was rejected. */
  lemma {:induction false} SinceMulti(log: seq<Event>, n: nat, s: Socket)
    requires n < |log| && log[n] == Began(s) && forall m | n < m < |log| :: log[m] != Began(s)
    ensures Replay(log, s).queue == EnqueuedFrom(log, n + 1, s)
    ensures Replay(log, s).erred <==> exists m | n < m < |log| :: log[m] == Erred(s)
  {
    if n < |log| - 1 {
      var before := log[..|log| - 1];
      SinceMulti(before, n, s);
      if Replay(before, s).erred {
        var m :| n < m < |before| && before[m] == Erred(s);
        assert log[m] == Erred(s);
      }
      if m :| n < m < |log| && log[m] == Erred(s) {
        assert m < |before| ==> before[m] == Erred(s);
      }
    }
  }

  lemma {:induction false} UnmentionedIsClean(log: seq<Event>, s: Socket)
    requires forall i | 0 <= i < |log| :: log[i].Touched? || log[i].s != s
    ensures Replay(log, s).watched == {} && !Replay(log, s).dirty
  {
    if log != [] {
      UnmentionedIsClean(log[..|log| - 1], s);
    }
  }

  function PairsOf(keys: seq<Bytes>, d: nat): set<(Bytes, nat)> {
    set k | k in keys :: (k, d)
  }

  ghost function WatchEvents(s: Socket, keys: seq<Bytes>, d: nat): seq<Event> {
    if keys == [] then [] else WatchEvents(s, keys[..|keys| - 1], d) + [Watched(s, keys[|keys| - 1], d)]
  }

  lemma WatchStep(s: Socket, keys: seq<Bytes>, n: nat, d: nat)
    requires n < |keys|
    ensures WatchEvents(s, keys[..n + 1], d) == WatchEvents(s, keys[..n], d) + [Watched(s, keys[n], d)]
    ensures PairsOf(keys[..n + 1], d) == PairsOf(keys[..n], d) + {(keys[n], d)}
  {
    assert keys[..n + 1] == keys[..n] + [keys[n]];
    assert keys[..n + 1][..n] == keys[..n];
  }

  lemma NotedOther(h: Summary, e: Event, t: Socket)
    requires !e.Touched? && e.s != t
    ensures Noted(h, e, t) == h
  {
  }

  // ---------- objects ----------

  class Database {
    var dict: Dict
    var watches: map<Bytes, set<Socket>>

    constructor ()
      ensures dict == map[] && watches == map[]
    {
      dict, watches := map[], map[];
    }

    predicate Watching(key: Bytes, s: Socket)
      reads this`watches
    {
      key in watches && s in watches[key]
    }

    ghost predicate WatchedOnlyBy(all: set<Socket>)
      reads this`watches
    {
      forall k | k in watches :: watches[k] <= all
    }

    method AddWatch(key: Bytes, s: Socket, ghost all: set<Socket>)
      requires WatchedOnlyBy(all) && s in all
      modifies this`watches
      ensures WatchedOnlyBy(all)
      ensures forall k, t | t in all :: Watching(k, t) <==> old(Watching(k, t)) || (k == key && t == s)
    {
      watches := watches[key := (if key in watches then watches[key] else {}) + {s}];
    }

    method RemoveWatch(key: Bytes, s: Socket, ghost all: set<Socket>)
      requires WatchedOnlyBy(all)
      modifies this`watches
      ensures WatchedOnlyBy(all)
      ensures forall k, t | t in all :: Watching(k, t) <==> old(Watching(k, t)) && !(k == key && t == s)
    {
      var left := (if key in watches then watches[key] else {}) - {s};
      assert forall t | t in all :: t in left <==> Watching(key, t) && t != s;
      if left == {} {
        watches := watches - {key};
      } else {
        watches := watches[key := left];
      }
    }
  }

  class Socket {
    var dbNum: nat
    var watches: set<(Bytes, nat)>
    var transaction: Option<seq<Command>>
    var failed: bool
    var notified: bool

    constructor ()
      ensures dbNum == 0 && watches == {} && transaction == None && !failed && !notified
    {
      dbNum, watches, transaction, failed, notified := 0, {}, None, false, false;
    }

    /** The session's table and flags say what the history says. */
    ghost predicate Faithful(log: seq<Event>)
      reads this
    {
      Agrees(Replay(log, this))
    }

    ghost predicate Agrees(h: Summary)
      reads this
    {
      && watches == h.watched && notified == h.dirty
      && (transaction.Some? ==> transaction.value == h.queue && failed == h.erred)
    }
  }

  class Server {
    const engine: Engine
    const dbs: seq<Database>
    var heap: map<Ref, Value>
    var sockets: set<Socket>
    ghost var log: seq<Event>

    ghost predicate Shape()
      reads this`sockets, sockets`dbNum, dbs`watches
    {
      && |dbs| > 0
      && (forall i, j | 0 <= i < j < |dbs| :: dbs[i] != dbs[j])
      && (forall s | s in sockets :: s.dbNum < |dbs|)
      && (forall d | 0 <= d < |dbs| :: dbs[d].WatchedOnlyBy(sockets))
    }

    /** A key is in a session's watches exactly when the session is among the key's watchers. */
    ghost predicate Linked()
      reads this`sockets, sockets`watches, dbs`watches
    {
      forall s | s in sockets :: LinkedTo(s)
    }

    ghost predicate LinkedTo(s: Socket)
      reads s`watches, dbs`watches
    {
      && (forall k, d | (k, d) in s.watches :: d < |dbs| && dbs[d].Watching(k, s))
      && (forall d | 0 <= d < |dbs| :: forall k | dbs[d].Watching(k, s) :: (k, d) in s.watches)
    }

    ghost predicate AllFaithful()
      reads this`sockets, this`log, sockets
    {
      && (forall s | s in sockets :: s.Faithful(log))
      && (forall i | 0 <= i < |log| :: log[i].Touched? || log[i].s in sockets)
    }

    ghost predicate Valid()
      reads this, sockets, dbs
    {
      Shape() && Linked() && AllFaithful()
    }

    function Dicts(): (c: seq<Dict>)
      reads dbs
      ensures |c| == |dbs|
      ensures forall i | 0 <= i < |dbs| :: c[i] == dbs[i].dict
    {
      seq(|dbs|, i requires 0 <= i < |dbs| reads dbs => dbs[i].dict)
    }

    function Contents(): Keyspace
      reads this, dbs
    {
      Keyspace(Dicts(), heap)
    }

    constructor (engine: Engine, n: nat)
      requires n > 0
      ensures Valid() && sockets == {} && log == [] && |dbs| == n
      ensures heap == map[] && forall i | 0 <= i < n :: dbs[i].dict == map[]
    {
      var all: seq<Database> := [];
      for i := 0 to n
        invariant |all| == i && forall j | 0 <= j < i :: fresh(all[j]) && all[j].dict == map[] && all[j].watches == map[]
        invariant forall j, k | 0 <= j < k < i :: all[j] != all[k]
      {
        var db := new Database();
        all := all + [db];
      }
      this.engine := engine;
      dbs, heap, sockets, log := all, map[], {}, [];
    }

    method Connect() returns (s: Socket)
      requires Valid()
      modifies this`sockets
      ensures Valid() && fresh(s) && sockets == old(sockets) + {s}
      ensures s.transaction == None && s.watches == {} && s.dbNum == 0
    {
      s := new Socket();
      sockets := sockets + {s};
      UnmentionedIsClean(log, s);
      forall d | 0 <= d < |dbs| ensures dbs[d].WatchedOnlyBy(sockets) && forall k :: !dbs[d].Watching(k, s) {
        assert old(dbs[d].WatchedOnlyBy(sockets));
      }
      forall t | t in sockets ensures LinkedTo(t) && t.Faithful(log) {
        if t != s {
          assert old(LinkedTo(t)) && old(t.Faithful(log));
        }
      }
    }

    // ---------- notification and writing ----------

    method NotifyWatch(d: nat, key: Bytes)
      requires Valid() && d < |dbs|
      modifies this`log, sockets`notified
      ensures Valid() && log == old(log) + [Touched(key, d)]
    {
      ghost var all := if key in dbs[d].watches then dbs[d].watches[key] else {};
      var rest := if key in dbs[d].watches then dbs[d].watches[key] else {};
      assert dbs[d].WatchedOnlyBy(sockets);
      while rest != {}
        invariant rest <= all <= sockets && log == old(log)
        invariant forall s | s in sockets :: s.notified == (old(s.notified) || s in all - rest)
        decreases rest
      {
        var s :| s in rest;
        s.notified := true;
        rest := rest - {s};
      }
      log := log + [Touched(key, d)];
      forall s | s in sockets ensures s.Faithful(log) {
        assert old(s.Faithful(log)) && LinkedTo(s);
        ReplayStep(old(log), Touched(key, d), s);
        assert s in all <==> dbs[d].Watching(key, s);
        assert s in all <==> (key, d) in s.watches;
      }
    }

    /** An item is stored, or its key removed, and nobody is notified. */
    method Store(item: Item)
      requires Valid() && item.db < |dbs|
      modifies {dbs[item.db]}`dict
      ensures Valid() && Dicts() == Put(old(Dicts()), item)
    {
      var d := dbs[item.db];
      d.dict := if item.value.Some? then d.dict[item.key := item.value.value] else d.dict - {item.key};
      assert Dicts() == old(Dicts())[item.db := d.dict];
    }

    /** CommandItem.writeback of a modified item. */
    method Writeback(item: Item)
      requires Valid() && item.db < |dbs|
      modifies this`log, sockets`notified, {dbs[item.db]}`dict
      ensures Valid() && log == old(log) + [Touched(item.key, item.db)]
      ensures Dicts() == Put(old(Dicts()), item)
    {
      NotifyWatch(item.db, item.key);
      Store(item);
    }

    /** The loop over the items a command marked modified. */
    method WritebackAll(writes: seq<Item>, ghost s: Socket)
      requires Valid()
      modifies this`log, sockets`notified, dbs`dict
      ensures Valid() && Dicts() == Written(old(Dicts()), writes)
      ensures Reports(old(log), log, s, WrittenKeys(writes, |dbs|))
    {
      ghost var was := Dicts();
      for n := 0 to |writes|
        invariant Valid() && Dicts() == Written(was, writes[..n])
        invariant Reports(old(log), log, s, WrittenKeys(writes[..n], |dbs|))
      {
        ghost var before := log;
        var w := writes[n];
        WrittenStep(was, writes, n);
        if w.db < |dbs| {
          Writeback(w);
          ReportsJoin(old(log), before, log, s, WrittenKeys(writes[..n], |dbs|), WrittenKeys([w], |dbs|));
        }
      }
      assert writes[..|writes|] == writes;
    }

    /** Objects are created or changed; the databases hold what they held. */
    method ChangeInPlace(changes: map<Ref, Value>)
      requires Valid()
      modifies this`heap
      ensures Valid() && Contents() == Keyspace(old(Dicts()), old(heap) + changes)
    {
      heap := heap + changes;
    }

    method RunData(s: Socket, text: seq<Bytes>) returns (reply: Reply)
      requires Valid() && s in sockets
      modifies this`log, this`heap, sockets`notified, dbs`dict
      ensures Valid()
      ensures (Contents(), s.dbNum, reply) == Apply(engine, old(Contents()), s.dbNum, Data(text))
      ensures Reports(old(log), log, s, TouchedBy(engine, old(Contents()), s.dbNum, Data(text)))
    {
      var effect := engine(text, Contents(), s.dbNum);
      ChangeInPlace(effect.changes);
      if effect.store.Some? && effect.store.value.db < |dbs| {
        Store(effect.store.value);
      }
      WritebackAll(effect.writes, s);
      reply := effect.reply;
    }

    /** SWAPDB. */
    method RunSwap(s: Socket, i: nat, j: nat) returns (reply: Reply)
      requires Valid() && s in sockets
      modifies dbs`dict
      ensures Valid()
      ensures (Contents(), s.dbNum, reply) == Apply(engine, old(Contents()), s.dbNum, Swap(i, j))
    {
      if i >= |dbs| || j >= |dbs| {
        return Error;
      }
      if i != j {
        dbs[i].dict, dbs[j].dict := dbs[j].dict, dbs[i].dict;
      }
      assert Dicts() == Swapped(old(Dicts()), i, j);
      reply := Ok;
    }

    /** The loop of Database.clear. */
    method NotifyAll(d: nat, keys: set<Bytes>, ghost s: Socket)
      requires Valid() && d < |dbs|
      modifies this`log, sockets`notified
      ensures Valid() && Reports(old(log), log, s, KeysOf(keys, d))
    {
      var rest := keys;
      while rest != {}
        invariant rest <= keys && Valid()
        invariant Reports(old(log), log, s, KeysOf(keys - rest, d))
        decreases rest
      {
        ghost var before := log;
        var key :| key in rest;
        NotifyWatch(d, key);
        ReportsJoin(old(log), before, log, s, KeysOf(keys - rest, d), {(key, d)});
        OneMoreKey(keys, rest, key, d);
        rest := rest - {key};
      }
      assert keys - rest == keys;
    }

    /** Database.clear. */
    method ClearDatabase(d: nat, ghost s: Socket)
      requires Valid() && d < |dbs|
      modifies this`log, sockets`notified, {dbs[d]}`dict
      ensures Valid() && Dicts() == old(Dicts())[d := map[]]
      ensures Reports(old(log), log, s, KeysOf(old(dbs[d].dict.Keys), d))
    {
      NotifyAll(d, dbs[d].dict.Keys, s);
      dbs[d].dict := map[];
      assert Dicts() == old(Dicts())[d := map[]];
    }

    // ---------- watching ----------

    /** The event is recorded, and the session is as the event says. */
    ghost method Record(e: Event, s: Socket)
      requires Shape() && Linked() && s in sockets
      requires !e.Touched? && e.s == s
      requires forall t | t in sockets && t != s :: t.Faithful(log)
      requires s.Agrees(Noted(Replay(log, s), e, s))
      requires forall i | 0 <= i < |log| :: log[i].Touched? || log[i].s in sockets
      modifies this`log
      ensures Valid() && log == old(log) + [e]
    {
      log := log + [e];
      forall t | t in sockets ensures t.Faithful(log) {
        ReplayStep(old(log), e, t);
        if t != s {
          NotedOther(Replay(old(log), t), e, t);
          assert old(t.Faithful(log));
        }
      }
    }

    /** Drops one watched key of the session, on both sides. */
    method Unlink(s: Socket, key: Bytes, d: nat)
      requires Shape() && s in sockets && LinkedTo(s) && (key, d) in s.watches
      modifies s`watches, dbs`watches
      ensures Shape() && LinkedTo(s) && s.watches == old(s.watches) - {(key, d)}
      ensures forall t | t in sockets && t != s && old(LinkedTo(t)) :: LinkedTo(t)
    {
      s.watches := s.watches - {(key, d)};
      dbs[d].RemoveWatch(key, s, sockets);
    }

    method ClearWatches(s: Socket)
      requires Valid() && s in sockets
      modifies this`log, s`notified, s`watches, dbs`watches
      ensures Valid() && s.watches == {} && !s.notified
      ensures log == old(log) + [Cleared(s)]
    {
      assert s.Faithful(log);
      s.notified := false;
      while s.watches != {}
        invariant Shape() && Linked() && log == old(log) && !s.notified
        decreases s.watches
      {
        var entry: (Bytes, nat) :| entry in s.watches;
        assert LinkedTo(s);
        Unlink(s, entry.0, entry.1);
      }
      Record(Cleared(s), s);
    }

    /** Notes one watched key of the session, on both sides. */
    method Link(s: Socket, key: Bytes, d: nat)
      requires Shape() && s in sockets && LinkedTo(s) && d < |dbs|
      modifies s`watches, dbs`watches
      ensures Shape() && LinkedTo(s) && s.watches == old(s.watches) + {(key, d)}
      ensures forall t | t in sockets && t != s && old(LinkedTo(t)) :: LinkedTo(t)
    {
      s.watches := s.watches + {(key, d)};
      dbs[d].AddWatch(key, s, sockets);
    }

    method WatchKey(s: Socket, key: Bytes)
      requires Valid() && s in sockets
      modifies this`log, s`watches, dbs`watches
      ensures Valid() && s.watches == old(s.watches) + {(key, s.dbNum)}
      ensures log == old(log) + [Watched(s, key, s.dbNum)]
    {
      assert LinkedTo(s) && s.Faithful(log);
      Link(s, key, s.dbNum);
      Record(Watched(s, key, s.dbNum), s);
    }

    // ---------- commands ----------

    /** The first d databases are cleared, and their keys reported. */
    ghost predicate ClearedUpTo(d: nat, was: seq<Dict>, start: seq<Event>, s: Socket)
      reads this, sockets, dbs
    {
      && Valid() && d <= |dbs| == |was| && Dicts() == Emptied(was, d)
      && Reports(start, log, s, StoredKeys(was, d))
    }

    method ClearNext(d: nat, ghost was: seq<Dict>, ghost start: seq<Event>, ghost s: Socket)
      requires ClearedUpTo(d, was, start, s) && d < |dbs|
      modifies this`log, sockets`notified, dbs`dict
      ensures ClearedUpTo(d + 1, was, start, s)
    {
      ghost var before := log;
      EmptiedStep(was, d);
      assert dbs[d].dict == Dicts()[d] == was[d];
      ClearDatabase(d, s);
      ReportsJoin(start, before, log, s, StoredKeys(was, d), KeysOf(was[d].Keys, d));
      StoredKeysStep(was, d);
    }

    /** The loop of FLUSHALL. */
    method ClearAll(ghost s: Socket)
      requires Valid()
      modifies this`log, sockets`notified, dbs`dict
      ensures Valid() && Dicts() == Emptied(old(Dicts()), |dbs|)
      ensures Reports(old(log), log, s, StoredKeys(old(Dicts()), |dbs|))
    {
      assert Dicts() == Emptied(Dicts(), 0);
      for d := 0 to |dbs|
        invariant ClearedUpTo(d, old(Dicts()), old(log), s)
      {
        ClearNext(d, old(Dicts()), old(log), s);
      }
    }

    method RunFlush(s: Socket, all: bool) returns (reply: Reply)
      requires Valid() && s in sockets
      modifies this`log, sockets`notified, dbs`dict
      ensures Valid()
      ensures (Contents(), s.dbNum, reply) == Apply(engine, old(Contents()), s.dbNum, Flush(all))
      ensures Reports(old(log), log, s, TouchedBy(engine, old(Contents()), s.dbNum, Flush(all)))
    {
      if all {
        ClearAll(s);
      } else {
        ClearDatabase(s.dbNum, s);
      }
      reply := Ok;
    }

    method RunSelect(s: Socket, db: nat) returns (reply: Reply)
      requires Valid() && s in sockets
      modifies s`dbNum
      ensures Valid()
      ensures (Contents(), s.dbNum, reply) == Apply(engine, old(Contents()), old(s.dbNum), Select(db))
    {
      ghost var was := Contents();
      assert forall t | t in sockets :: t.Faithful(log);
      if db < |dbs| {
        s.dbNum := db;
        reply := Ok;
      } else {
        reply := Error;
      }
      assert Contents() == was;
    }

    method RunUnwatch(s: Socket) returns (reply: Reply)
      requires Valid() && s in sockets
      modifies this`log, s`notified, s`watches, dbs`watches
      ensures Valid() && s.watches == {} && log == old(log) + [Cleared(s)]
      ensures (Contents(), s.dbNum, reply) == Apply(engine, old(Contents()), s.dbNum, Unwatch)
    {
      ghost var was := Contents();
      ClearWatches(s);
      assert Contents() == was;
      reply := Ok;
    }

    method RunCommand(s: Socket, cmd: Command) returns (reply: Reply)
      requires Valid() && s in sockets
      modifies this`log, this`heap, sockets`notified, s`dbNum, s`watches, dbs
      ensures Valid()
      ensures (Contents(), s.dbNum, reply) == Apply(engine, old(Contents()), old(s.dbNum), cmd)
      ensures Reports(old(log), log, s, TouchedBy(engine, old(Contents()), old(s.dbNum), cmd))
      ensures s.watches == if cmd.Unwatch? then {} else old(s.watches)
    {
      match cmd
      case Data(text) => reply := RunData(s, text);
      case Flush(all) => reply := RunFlush(s, all);
      case Swap(i, j) => reply := RunSwap(s, i, j);
      case Select(db) => reply := RunSelect(s, db);
      case Unwatch => reply := RunUnwatch(s);
    }

    method RunQueue(s: Socket, queue: seq<Command>) returns (replies: seq<Reply>)
      requires Valid() && s in sockets && s.watches == {}
      modifies this`log, this`heap, sockets`notified, s`dbNum, s`watches, dbs
      ensures Valid() && s.watches == {}
      ensures (Contents(), s.dbNum, replies) == ApplyAll(engine, old(Contents()), old(s.dbNum), queue)
      ensures Reports(old(log), log, s, TouchedByAll(engine, old(Contents()), old(s.dbNum), queue))
    {
      ghost var was := Contents();
      replies := [];
      for n := 0 to |queue|
        invariant Valid() && s.watches == {}
        invariant (Contents(), s.dbNum, replies) == ApplyAll(engine, was, old(s.dbNum), queue[..n])
        invariant Reports(old(log), log, s, TouchedByAll(engine, was, old(s.dbNum), queue[..n]))
      {
        ghost var before, contents, current := log, Contents(), s.dbNum;
        var reply := RunCommand(s, queue[n]);
        replies := replies + [reply];
        assert queue[..n + 1][..n] == queue[..n];
        ReportsJoin(old(log), before, log, s, TouchedByAll(engine, was, old(s.dbNum), queue[..n]),
                    TouchedBy(engine, contents, current, queue[n]));
      }
      assert queue[..|queue|] == queue;
    }

    // ---------- transactions ----------

    method StartMulti(s: Socket) returns (reply: Reply)
      requires Valid() && s in sockets
      modifies this`log, s`transaction, s`failed
      ensures Valid()
      ensures old(s.transaction).Some? ==>
        reply == Error && s.transaction == old(s.transaction) && s.failed == old(s.failed) && log == old(log)
      ensures old(s.transaction).None? ==> reply == Ok && s.transaction == Some([]) && log == old(log) + [Began(s)]
    {
      assert s.Faithful(log);
      if s.transaction.Some? {
        return Error;
      }
      s.transaction, s.failed := Some([]), false;
      Record(Began(s), s);
      reply := Ok;
    }

    /** Forgets the transaction and every watch. */
    method Abandon(s: Socket, failed: bool)
      requires Valid() && s in sockets
      modifies this`log, s`transaction, s`failed, s`notified, s`watches, dbs`watches
      ensures Valid() && s.transaction == None && s.failed == failed && s.watches == {}
      ensures log == old(log) + [Cleared(s)] && Contents() == old(Contents())
    {
      ghost var was := Contents();
      assert s.Faithful(log);
      s.transaction, s.failed := None, failed;
      ClearWatches(s);
      assert Contents() == was;
    }

    method RunDiscard(s: Socket) returns (reply: Reply)
      requires Valid() && s in sockets
      modifies this`log, s`transaction, s`failed, s`notified, s`watches, dbs`watches
      ensures Valid() && s.transaction == None
      ensures old(s.transaction).None? ==> reply == Error && s.watches == old(s.watches) && log == old(log)
      ensures old(s.transaction).Some? ==> reply == Ok && !s.failed && s.watches == {} && log == old(log) + [Cleared(s)]
    {
      if s.transaction.None? {
        return Error;
      }
      Abandon(s, false);
      reply := Ok;
    }

    /**
     EXEC against the history: it runs nothing when a request was rejected
     since MULTI; otherwise it answers nil exactly when a watched key has been
     touched; otherwise it has the effect and the replies of the queued
     commands run one after the other.
     */
    method RunExec(s: Socket) returns (reply: Reply)
      requires Valid() && s in sockets
      modifies this`log, this`heap, sockets`notified, s`dbNum, s`transaction, s`failed, s`watches, dbs
      ensures Valid() && s.transaction == None
      ensures s.watches == if old(s.transaction).None? then old(s.watches) else {}
      ensures
        var h := Replay(old(log), s);
        if old(s.transaction).None? then
          reply == Error && log == old(log) && Contents() == old(Contents()) && s.dbNum == old(s.dbNum)
        else if h.erred || h.dirty then
          && reply == (if h.erred then Error else Nil)
          && log == old(log) + [Cleared(s)] && Contents() == old(Contents()) && s.dbNum == old(s.dbNum)
        else
          && reply.Array?
          && RunInOrder(engine, old(Contents()), old(s.dbNum), h.queue, Contents(), s.dbNum, reply.rs)
          && Reports(old(log) + [Cleared(s)], log, s, TouchedByAll(engine, old(Contents()), old(s.dbNum), h.queue))
    {
      ghost var was := Contents();
      if s.transaction.None? {
        assert Contents() == was;
        return Error;
      }
      assert s.Faithful(log);
      var queue, failed, notified := s.transaction.value, s.failed, s.notified;
      Abandon(s, failed);
      if failed {
        return Error;
      }
      if notified {
        return Nil;
      }
      var replies := RunQueue(s, queue);
      ghost var states := ApplyAllIsChain(engine, was, old(s.dbNum), queue);
      reply := Array(replies);
    }

    // ---------- requests ----------

    /** The loop of WATCH. */
    method WatchKeys(s: Socket, keys: seq<Bytes>)
      requires Valid() && s in sockets
      modifies this`log, s`watches, dbs`watches
      ensures Valid() && log == old(log) + WatchEvents(s, keys, s.dbNum)
      ensures s.watches == old(s.watches) + PairsOf(keys, s.dbNum)
    {
      assert log + WatchEvents(s, [], s.dbNum) == log;
      for n := 0 to |keys|
        invariant Valid() && log == old(log) + WatchEvents(s, keys[..n], s.dbNum)
        invariant s.watches == old(s.watches) + PairsOf(keys[..n], s.dbNum)
      {
        WatchKey(s, keys[n]);
        WatchStep(s, keys, n, s.dbNum);
      }
      assert keys[..|keys|] == keys;
    }

    method RunWatch(s: Socket, keys: seq<Bytes>) returns (reply: Reply)
      requires Valid() && s in sockets
      modifies this`log, s`watches, dbs`watches
      ensures Valid()
      ensures s.transaction.Some? ==> reply == Error && s.watches == old(s.watches) && log == old(log)
      ensures s.transaction.None? ==> reply == Ok && log == old(log) + WatchEvents(s, keys, s.dbNum)
      ensures s.transaction.None? ==> s.watches == old(s.watches) + PairsOf(keys, s.dbNum)
    {
      if s.transaction.Some? {
        return Error;
      }
      WatchKeys(s, keys);
      reply := Ok;
    }

    method Enqueue(s: Socket, cmd: Command) returns (reply: Reply)
      requires Valid() && s in sockets && s.transaction.Some?
      modifies this`log, s`transaction
      ensures Valid() && reply == Queued && log == old(log) + [Enqueued(s, cmd)]
      ensures s.transaction == Some(old(s.transaction).value + [cmd])
    {
      assert s.Faithful(log);
      s.transaction := Some(s.transaction.value + [cmd]);
      Record(Enqueued(s, cmd), s);
      reply := Queued;
    }

    /** An error outside a command's function fails the transaction. */
    method Fail(s: Socket)
      requires Valid() && s in sockets
      modifies this`log, s`failed
      ensures Valid() && log == if s.transaction.Some? then old(log) + [Erred(s)] else old(log)
    {
      if s.transaction.Some? {
        assert s.Faithful(log);
        s.failed := true;
        Record(Erred(s), s);
      }
    }

    method Reject(s: Socket, aborts: bool) returns (reply: Reply)
      requires Valid() && s in sockets
      modifies this`log, s`transaction, s`failed, s`notified, s`watches, dbs`watches
      ensures Valid() && reply == Error
      ensures aborts ==> s.transaction == None && !s.failed && s.watches == {}
      ensures !aborts ==> s.transaction == old(s.transaction) && s.watches == old(s.watches)
      ensures var failed := if old(s.transaction).Some? then old(log) + [Erred(s)] else old(log);
        log == if aborts then failed + [Cleared(s)] else failed
    {
      Fail(s);
      if aborts {
        Abandon(s, false);
      }
      reply := Error;
    }

    /** A command runs at once, or joins the queue of an open transaction. */
    method RunOrEnqueue(s: Socket, cmd: Command) returns (reply: Reply)
      requires Valid() && s in sockets
      modifies this`log, this`heap, sockets`notified, s, dbs
      ensures Valid() && s.transaction.Some? == old(s.transaction).Some?
      ensures
        if old(s.transaction).Some? then
          && reply == Queued && log == old(log) + [Enqueued(s, cmd)]
          && Contents() == old(Contents()) && s.dbNum == old(s.dbNum)
        else
          && (Contents(), s.dbNum, reply) == Apply(engine, old(Contents()), old(s.dbNum), cmd)
          && Reports(old(log), log, s, TouchedBy(engine, old(Contents()), old(s.dbNum), cmd))
    {
      if s.transaction.Some? {
        reply := Enqueue(s, cmd);
      } else {
        reply := RunCommand(s, cmd);
      }
    }

    /** The requests that run no command. */
    method ProcessOther(s: Socket, request: Request) returns (reply: Reply)
      requires Valid() && s in sockets && !request.Do? && !request.Exec?
      modifies this`log, s`transaction, s`failed, s`notified, s`watches, dbs`watches
      ensures Valid() && Contents() == old(Contents())
      ensures s.transaction.Some? == StaysOpen(old(s.transaction).Some?, request)
      ensures (reply, log) == Answered(old(log), s, s.dbNum, old(s.transaction).Some?, request)
    {
      ghost var was := Contents();
      match request
      case Watch(keys) => reply := RunWatch(s, keys);
      case Multi => reply := StartMulti(s);
      case Discard => reply := RunDiscard(s);
      case Rejected(aborts) => reply := Reject(s, aborts);
      assert Contents() == was;
    }

    method Process(s: Socket, request: Request) returns (reply: Reply)
      requires Valid() && s in sockets
      modifies this`log, this`heap, sockets`notified, s, dbs
      ensures Valid()
      ensures s.transaction.Some? == StaysOpen(old(s.transaction).Some?, request)
      ensures
        var open := old(s.transaction).Some?;
        match request
        case Do(cmd) =>
          if open then
            && reply == Queued && log == old(log) + [Enqueued(s, cmd)]
            && Contents() == old(Contents()) && s.dbNum == old(s.dbNum)
          else
            && (Contents(), s.dbNum, reply) == Apply(engine, old(Contents()), old(s.dbNum), cmd)
            && Reports(old(log), log, s, TouchedBy(engine, old(Contents()), old(s.dbNum), cmd))
        case Exec =>
          var h := Replay(old(log), s);
          if open && !h.erred && !TouchedSinceWatch(old(log), s) then
            && reply.Array?
            && RunInOrder(engine, old(Contents()), old(s.dbNum), h.queue, Contents(), s.dbNum, reply.rs)
            && Reports(old(log) + [Cleared(s)], log, s, TouchedByAll(engine, old(Contents()), old(s.dbNum), h.queue))
          else
            && reply == (if open && !h.erred then Nil else Error)
            && log == (if open then old(log) + [Cleared(s)] else old(log))
            && Contents() == old(Contents()) && s.dbNum == old(s.dbNum)
        case _ =>
          && Contents() == old(Contents()) && s.dbNum == old(s.dbNum)
          && (reply, log) == Answered(old(log), s, s.dbNum, open, request)
      ensures Noticed(old(Contents()), Contents(), old(log), log,
                      SilentInRequest(engine, old(Contents()), old(s.dbNum), request, old(s.transaction).Some?,
                                      Replay(old(log), s).queue))
    {
      ghost var was, start, current, open, queue := Contents(), log, s.dbNum, s.transaction.Some?, Replay(log, s).queue;
      DirtyIffTouchedSinceWatch(log, s);
      match request
      case Do(cmd) =>
        reply := RunOrEnqueue(s, cmd);
        if !open {
          CommandIsNoticed(engine, was, current, cmd, start, log, s);
        }
      case Exec =>
        reply := RunExec(s);
        if reply.Array? {
          QueueIsNoticed(engine, was, current, queue, Contents(), s.dbNum, reply.rs, start, log, s);
        }
      case _ => reply := ProcessOther(s, request);
    }
  }
}
