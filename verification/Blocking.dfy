/**
 Lists of one database, the clients that push to and pop from them, and the
 clients asleep in BLPOP, BRPOP and BRPOPLPUSH. Every step runs under the
 server's lock: a command, the retry of a woken client, a time-out, or CLIENT
 UNBLOCK. Whatever the interleaving, no wake-up is lost and every element
 pushed is delivered at most once.
 */
module Blocking {
  import opened Bytes
  import opened Options
  import opened Sorted

  datatype Value = List(elems: seq<Bytes>) | Other(name: Bytes)

  type Dict = map<Bytes, Value>

  /** BLPOP (left) or BRPOP, and BRPOPLPUSH. */
  datatype Op = PopAny(keys: seq<Bytes>, left: bool) | PopPush(src: Bytes, dst: Bytes)

  /** A client in a blocking command; woken: the condition was notified; reason: CLIENT UNBLOCK, with or without an error. */
  datatype Sleeper = Sleeper(op: Op, woken: bool, reason: Option<bool>)

  datatype State = State(dict: Dict, asleep: map<nat, Sleeper>)

  datatype Reply =
    | Nil
    | Error
    | Waiting                          // no reply yet
    | Popped(key: Bytes, elem: Bytes)  // taken out of the database
    | Taken(elems: seq<Bytes>)
    | Moved(elem: Bytes)               // still stored, under another key
    | Length(n: nat)

  datatype Step =
    | Push(key: Bytes, values: seq<Bytes>, left: bool, ifPresent: bool)
    | Take(key: Bytes, left: bool, args: seq<int>)  // the optional count
    | Move(src: Bytes, dst: Bytes, fromLeft: bool, toLeft: bool)
    | Block(client: nat, op: Op, inTransaction: bool)
    | Wake(client: nat)
    | TimeOut(client: nat)
    | Unblock(client: nat, error: bool)
    | Overwrite(key: Bytes, value: Option<Value>)  // any other command's write

  // ---------- specification ----------

  predicate IsOther(d: Dict, key: Bytes) {
    key in d && d[key].Other?
  }

  /** The list at a key; a missing one is empty. */
  function Elems(d: Dict, key: Bytes): seq<Bytes> {
    if key in d && d[key].List? then d[key].elems else []
  }

  /** A list written back; an empty one is removed. */
  function Stored(d: Dict, key: Bytes, elems: seq<Bytes>): Dict {
    if elems == [] then d - {key} else d[key := List(elems)]
  }

  function AllWoken(asleep: map<nat, Sleeper>): map<nat, Sleeper> {
    map c | c in asleep :: asleep[c].(woken := true)
  }

  /** A modified list is committed: every sleeper is notified. */
  function Committed(s: State, key: Bytes, elems: seq<Bytes>): State {
    State(Stored(s.dict, key, elems), AllWoken(s.asleep))
  }

  function End(l: seq<Bytes>, left: bool): Bytes
    requires l != []
  {
    if left then l[0] else l[|l| - 1]
  }

  function Rest(l: seq<Bytes>, left: bool): seq<Bytes>
    requires l != []
  {
    if left then l[1..] else l[..|l| - 1]
  }

  function Extended(l: seq<Bytes>, values: seq<Bytes>, left: bool): seq<Bytes> {
    if left then Reversed(values) + l else l + values
  }

  /** One pass of BLPOP or BRPOP over its keys; Nil when none of them has an element to give. */
  function PopPass(s: State, keys: seq<Bytes>, left: bool, first: bool): (State, Reply) {
    if keys == [] then (s, Nil)
    else if IsOther(s.dict, keys[0]) then if first then (s, Error) else PopPass(s, keys[1..], left, first)
    else
      var l := Elems(s.dict, keys[0]);
      if l == [] then PopPass(s, keys[1..], left, first)
      else (Committed(s, keys[0], Rest(l, left)), Popped(keys[0], End(l, left)))
  }

  /** The element at the given end of one list moves to the given end of another, or of the same one. */
  function Transferred(s: State, src: Bytes, dst: Bytes, fromLeft: bool, toLeft: bool): State
    requires Elems(s.dict, src) != []
  {
    var l := Elems(s.dict, src);
    var rest := Rest(l, fromLeft);
    if src == dst then Committed(s, src, Extended(rest, [End(l, fromLeft)], toLeft))
    else Committed(Committed(s, src, rest), dst, Extended(Elems(s.dict, dst), [End(l, fromLeft)], toLeft))
  }

  function PopPushPass(s: State, src: Bytes, dst: Bytes, first: bool): (State, Reply) {
    if IsOther(s.dict, src) then (s, if first then Error else Nil)
    else if Elems(s.dict, src) == [] then (s, Nil)
    else if IsOther(s.dict, dst) then (s, Error)
    else (Transferred(s, src, dst, false, true), Moved(End(Elems(s.dict, src), false)))
  }

  function Pass(s: State, op: Op, first: bool): (State, Reply) {
    match op
    case PopAny(keys, left) => PopPass(s, keys, left, first)
    case PopPush(src, dst) => PopPushPass(s, src, dst, first)
  }

  /** At most one count, and that not negative. */
  predicate IsCount(args: seq<int>) {
    |args| <= 1 && (args == [] || args[0] >= 0)
  }

  function CountOf(args: seq<int>): Option<nat>
    requires IsCount(args)
  {
    if args == [] then None else Some(args[0])
  }

  /** LPOP and RPOP; with a count the reply is a list, from the popped end inwards. */
  function TakeFrom(s: State, key: Bytes, left: bool, count: Option<nat>): (State, Reply) {
    var l := Elems(s.dict, key);
    if IsOther(s.dict, key) then (s, Error)
    else if l == [] then (s, Nil)
    else
      var cut := Cut(|l|, left, count);
      if left then (Committed(s, key, l[cut..]), Taken(l[..cut]))
      else (Committed(s, key, l[..cut]), Taken(Reversed(l[cut..])))
  }

  /** Where a pop divides a list of n elements. */
  function Cut(n: nat, left: bool, count: Option<nat>): (r: nat)
    requires n > 0
    ensures r <= n
  {
    var taken := if count.None? then 1 else if count.value <= n then count.value else n;
    if left then taken else n - taken
  }

  /** The first pass: in a transaction the client never sleeps. */
  function Started(s: State, client: nat, op: Op, inTransaction: bool): (State, Reply) {
    var (t, reply) := Pass(s, op, true);
    if reply != Nil || inTransaction then (t, reply)
    else (t.(asleep := t.asleep[client := Sleeper(op, false, None)]), Waiting)
  }

  /** A notified client takes its CLIENT UNBLOCK reason, or tries again. */
  function Retried(s: State, client: nat): (State, Reply)
    requires client in s.asleep
  {
    var me := s.asleep[client];
    var rest := s.(asleep := s.asleep - {client});
    if me.reason.Some? then (rest, if me.reason.value then Error else Nil)
    else
      var (t, reply) := Pass(rest, me.op, false);
      if reply != Nil then (t, reply) else (t.(asleep := t.asleep[client := me.(woken := false)]), Waiting)
  }

  predicate Enabled(s: State, step: Step) {
    match step
    case Block(c, _, _) => c !in s.asleep
    case Wake(c) => c in s.asleep && s.asleep[c].woken
    case TimeOut(c) => c in s.asleep
    case _ => true
  }

  function Next(s: State, step: Step): (State, Reply)
    requires Enabled(s, step)
  {
    match step
    case Push(key, values, left, ifPresent) =>
      var l := Elems(s.dict, key);
      if IsOther(s.dict, key) then (s, Error)
      else if ifPresent && l == [] then (s, Length(0))
      else (Committed(s, key, Extended(l, values, left)), Length(|l| + |values|))
    case Take(key, left, args) =>
      if !IsCount(args) then (s, Error) else TakeFrom(s, key, left, CountOf(args))
    case Move(src, dst, fromLeft, toLeft) =>
      if src !in s.dict then (s, Nil)
      else if IsOther(s.dict, src) || IsOther(s.dict, dst) then (s, Error)
      else if Elems(s.dict, src) == [] then (s, Nil)  // never: no empty list is stored
      else (Transferred(s, src, dst, fromLeft, toLeft), Moved(End(Elems(s.dict, src), fromLeft)))
    case Block(client, op, inTransaction) => Started(s, client, op, inTransaction)
    case Wake(client) => Retried(s, client)
    case TimeOut(client) => (s.(asleep := s.asleep - {client}), Nil)
    case Unblock(client, error) =>
      if client !in s.asleep then (s, Length(0))
      else
        var all := AllWoken(s.asleep);
        (s.(asleep := all[client := all[client].(reason := Some(error))]), Length(1))
    case Overwrite(key, value) =>
      if value.Some? && value.value.Other? then (State(s.dict[key := value.value], AllWoken(s.asleep)), Nil)
      else (Committed(s, key, if value.Some? then value.value.elems else []), Nil)
  }

  // ---------- no lost wake-up ----------

  /** Nothing the client waits for is there: each source key is missing or holds no list. */
  ghost predicate Starved(d: Dict, op: Op) {
    match op
    case PopAny(keys, _) => forall k | k in keys :: k !in d || d[k].Other?
    case PopPush(src, _) => src !in d || d[src].Other?
  }

  ghost predicate NoEmptyList(d: Dict) {
    forall k | k in d :: d[k] != List([])
  }

  ghost predicate SleepsWell(d: Dict, me: Sleeper) {
    && (!me.woken ==> Starved(d, me.op))
    && (me.reason.Some? ==> me.woken)
  }

  ghost predicate Inv(s: State) {
    NoEmptyList(s.dict) && forall c | c in s.asleep :: SleepsWell(s.dict, s.asleep[c])
  }

  lemma {:induction false} FailedPopPass(s: State, keys: seq<Bytes>, left: bool, first: bool)
    requires NoEmptyList(s.dict) && PopPass(s, keys, left, first).1 == Nil
    ensures PopPass(s, keys, left, first).0 == s && Starved(s.dict, PopAny(keys, left))
  {
    if keys != [] {
      FailedPopPass(s, keys[1..], left, first);
      assert keys == [keys[0]] + keys[1..];
    }
  }

  /** A pass that gives nothing changes nothing and leaves its client starved. */
  lemma FailedPass(s: State, op: Op, first: bool)
    requires NoEmptyList(s.dict) && Pass(s, op, first).1 == Nil
    ensures Pass(s, op, first).0 == s && Starved(s.dict, op)
  {
    if op.PopAny? {
      FailedPopPass(s, op.keys, op.left, first);
    }
  }

  /** A state after a commit, or the state itself. */
  ghost predicate Follows(s: State, t: State) {
    t == s || (NoEmptyList(t.dict) && t.asleep == AllWoken(s.asleep))
  }

  lemma FollowsKeepsInv(s: State, t: State)
    requires Inv(s) && Follows(s, t)
    ensures Inv(t)
  {
  }

  lemma WokenTwice(asleep: map<nat, Sleeper>)
    ensures AllWoken(AllWoken(asleep)) == AllWoken(asleep)
  {
  }

  lemma CommittedFollows(s: State, key: Bytes, elems: seq<Bytes>)
    requires NoEmptyList(s.dict)
    ensures Follows(s, Committed(s, key, elems))
  {
  }

  lemma TransferredFollows(s: State, src: Bytes, dst: Bytes, fromLeft: bool, toLeft: bool)
    requires NoEmptyList(s.dict) && Elems(s.dict, src) != []
    ensures Follows(s, Transferred(s, src, dst, fromLeft, toLeft))
  {
  }

  lemma {:induction false} PopPassFollows(s: State, keys: seq<Bytes>, left: bool, first: bool)
    requires NoEmptyList(s.dict)
    ensures Follows(s, PopPass(s, keys, left, first).0)
  {
    if keys != [] {
      PopPassFollows(s, keys[1..], left, first);
      if Elems(s.dict, keys[0]) != [] {
        CommittedFollows(s, keys[0], Rest(Elems(s.dict, keys[0]), left));
      }
    }
  }

  lemma PassFollows(s: State, op: Op, first: bool)
    requires NoEmptyList(s.dict)
    ensures Follows(s, Pass(s, op, first).0)
  {
    match op
    case PopAny(keys, left) => PopPassFollows(s, keys, left, first);
    case PopPush(src, dst) =>
      if Elems(s.dict, src) != [] {
        TransferredFollows(s, src, dst, false, true);
      }
  }

  /**
   Every step keeps the invariant; in particular a client that sleeps with no
   wake-up pending has nothing to pop.
   */
  lemma StepKeepsInv(s: State, step: Step)
    requires Inv(s) && Enabled(s, step)
    ensures Inv(Next(s, step).0)
  {
    match step
    case Push(key, values, left, ifPresent) =>
      CommittedFollows(s, key, Extended(Elems(s.dict, key), values, left));
    case Take(key, left, args) =>
      if IsCount(args) {
        TakeFollows(s, key, left, CountOf(args));
      }
    case Move(src, dst, fromLeft, toLeft) =>
      if Elems(s.dict, src) != [] {
        TransferredFollows(s, src, dst, fromLeft, toLeft);
      }
    case Block(client, op, inTransaction) =>
      PassFollows(s, op, true);
      FollowsKeepsInv(s, Pass(s, op, true).0);
      if Pass(s, op, true).1 == Nil {
        FailedPass(s, op, true);
      }
    case Wake(client) =>
      RetryKeepsInv(s, client);
    case TimeOut(client) =>
    case Unblock(client, error) =>
    case Overwrite(key, value) =>
      CommittedFollows(s, key, if value.Some? && value.value.List? then value.value.elems else []);
  }

  lemma TakeFollows(s: State, key: Bytes, left: bool, count: Option<nat>)
    requires NoEmptyList(s.dict)
    ensures Follows(s, TakeFrom(s, key, left, count).0)
  {
  }

  lemma RetryKeepsInv(s: State, client: nat)
    requires Inv(s) && client in s.asleep
    ensures Inv(Retried(s, client).0)
  {
    var me := s.asleep[client];
    var rest := s.(asleep := s.asleep - {client});
    PassFollows(rest, me.op, false);
    FollowsKeepsInv(rest, Pass(rest, me.op, false).0);
    if Pass(rest, me.op, false).1 == Nil {
      FailedPass(rest, me.op, false);
    }
  }

  // ---------- runs ----------

  /** A run; a step that is not enabled does nothing. */
  function Run(s: State, steps: seq<Step>): (State, seq<Reply>)
    decreases |steps|
  {
    if steps == [] then (s, [])
    else
      var (t, replies) := Run(s, steps[..|steps| - 1]);
      var step := steps[|steps| - 1];
      if Enabled(t, step) then (Next(t, step).0, replies + [Next(t, step).1]) else (t, replies + [Waiting])
  }

  /** In every reachable state, a client asleep with no wake-up pending has only missing or non-list source keys. */
  lemma {:induction false} NoLostWakeup(s: State, steps: seq<Step>)
    requires Inv(s)
    ensures Inv(Run(s, steps).0)
  {
    if steps != [] {
      NoLostWakeup(s, steps[..|steps| - 1]);
      var t := Run(s, steps[..|steps| - 1]).0;
      if Enabled(t, steps[|steps| - 1]) {
        StepKeepsInv(t, steps[|steps| - 1]);
      }
    }
  }

  // ---------- retries end ----------

  ghost function WokenOf(s: State): set<nat> {
    set c | c in s.asleep && s.asleep[c].woken
  }

  /** A retry either serves its client or takes away one pending wake-up. */
  lemma RetryMakesProgress(s: State, client: nat)
    requires Inv(s) && Enabled(s, Wake(client))
    ensures var t := Next(s, Wake(client)).0;
      || t.asleep.Keys == s.asleep.Keys - {client}
      || (t.asleep.Keys == s.asleep.Keys && WokenOf(t) == WokenOf(s) - {client})
  {
    var me := s.asleep[client];
    var rest := s.(asleep := s.asleep - {client});
    if me.reason.None? {
      if Pass(rest, me.op, false).1 == Nil {
        FailedPass(rest, me.op, false);
      } else {
        PassFollows(rest, me.op, false);
      }
    }
  }

  /** From any reachable state finitely many retries lead to one where every client still asleep is starved. */
  lemma {:induction false} RetriesSettle(s: State) returns (steps: seq<Step>)
    requires Inv(s)
    ensures forall i | 0 <= i < |steps| :: steps[i].Wake?
    ensures Inv(Run(s, steps).0) && WokenOf(Run(s, steps).0) == {}
    ensures forall c | c in Run(s, steps).0.asleep :: Starved(Run(s, steps).0.dict, Run(s, steps).0.asleep[c].op)
    decreases |s.asleep.Keys|, |WokenOf(s)|
  {
    if WokenOf(s) == {} {
      steps := [];
      forall c | c in s.asleep ensures Starved(s.dict, s.asleep[c].op) {
        assert c !in WokenOf(s);
      }
    } else {
      var c :| c in WokenOf(s);
      var t := Next(s, Wake(c)).0;
      StepKeepsInv(s, Wake(c));
      RetryMakesProgress(s, c);
      var later := RetriesSettle(t);
      steps := [Wake(c)] + later;
      RunFirst(s, Wake(c), later);
    }
  }

  lemma {:induction false} RunFirst(s: State, step: Step, later: seq<Step>)
    requires Enabled(s, step)
    ensures Run(s, [step] + later).0 == Run(Next(s, step).0, later).0
    decreases |later|
  {
    var steps := [step] + later;
    if later == [] {
      assert steps == [step] && steps[..0] == [];
    } else {
      RunFirst(s, step, later[..|later| - 1]);
      assert steps[..|steps| - 1] == [step] + later[..|later| - 1];
    }
  }

  // ---------- which key serves ----------

  /** The i-th key holds the first element a pass may take. */
  ghost predicate Serves(d: Dict, keys: seq<Bytes>, i: int, first: bool) {
    && 0 <= i < |keys| && Elems(d, keys[i]) != []
    && forall j | 0 <= j < i :: Elems(d, keys[j]) == [] && (first ==> !IsOther(d, keys[j]))
  }

  /** The i-th key makes a first pass fail. */
  ghost predicate Obstructs(d: Dict, keys: seq<Bytes>, i: int) {
    0 <= i < |keys| && IsOther(d, keys[i]) && forall j | 0 <= j < i :: Elems(d, keys[j]) == [] && !IsOther(d, keys[j])
  }

  /** A pass pops from the first key that has a list, BLPOP its first element and BRPOP its last one. */
  lemma {:induction false} PassServesFirst(s: State, keys: seq<Bytes>, left: bool, first: bool, i: int)
    requires Serves(s.dict, keys, i, first)
    ensures
      var (t, reply) := PopPass(s, keys, left, first);
      var l := s.dict[keys[i]].elems;
      && Commits(s, t, {keys[i]})
      && reply == Popped(keys[i], if left then l[0] else l[|l| - 1])
      && Holds(t.dict, keys[i], if left then l[1..] else l[..|l| - 1])
  {
    if i > 0 {
      assert Elems(s.dict, keys[0]) == [];
      assert keys[1..][i - 1] == keys[i];
      PassServesFirst(s, keys[1..], left, first, i - 1);
    }
  }

  /** It fails exactly when it is the first pass and meets a key of another type before any list. */
  lemma {:induction false} PassFailsIff(s: State, keys: seq<Bytes>, left: bool, first: bool)
    ensures PopPass(s, keys, left, first).1 == Error <==> first && exists i :: Obstructs(s.dict, keys, i)
  {
    if keys != [] {
      var tail := keys[1..];
      PassFailsIff(s, tail, left, first);
      if IsOther(s.dict, keys[0]) {
        assert Obstructs(s.dict, keys, 0);
      } else {
        if i :| Obstructs(s.dict, keys, i) {
          assert Obstructs(s.dict, tail, i - 1);
        }
        if i :| Obstructs(s.dict, tail, i) {
          assert keys[i + 1] == tail[i];
          assert Elems(s.dict, keys[0]) == [] ==> Obstructs(s.dict, keys, i + 1);
        }
      }
    }
  }

  /** It gives nothing exactly when no key has a list, and on the first pass none is of another type. */
  lemma {:induction false} PassGivesNothingIff(s: State, keys: seq<Bytes>, left: bool, first: bool)
    ensures PopPass(s, keys, left, first).1 == Nil <==>
      forall k | k in keys :: Elems(s.dict, k) == [] && (first ==> !IsOther(s.dict, k))
  {
    if keys != [] {
      PassGivesNothingIff(s, keys[1..], left, first);
      assert keys == [keys[0]] + keys[1..];
    }
  }

  // ---------- what each step does to the lists ----------

  /** The key holds this list; an empty one is not stored. */
  ghost predicate Holds(d: Dict, key: Bytes, l: seq<Bytes>) {
    if l == [] then key !in d else key in d && d[key] == List(l)
  }

  /** No key but these has changed, and every sleeper is woken and otherwise as it was. */
  ghost predicate Commits(s: State, t: State, keys: set<Bytes>) {
    && (forall k | k !in keys :: (k in t.dict <==> k in s.dict) && (k in s.dict ==> t.dict[k] == s.dict[k]))
    && t.asleep.Keys == s.asleep.Keys
    && forall c | c in s.asleep :: t.asleep[c] == Sleeper(s.asleep[c].op, true, s.asleep[c].reason)
  }

  lemma CommittedResult(s: State, key: Bytes, l: seq<Bytes>)
    ensures Commits(s, Committed(s, key, l), {key}) && Holds(Committed(s, key, l).dict, key, l)
  {
  }

  /**
   LPUSH and LPUSHX put the values in front of the list, the last of them
   first; RPUSH and RPUSHX put them behind it, in order.
   */
  lemma PushResult(s: State, key: Bytes, values: seq<Bytes>, left: bool, ifPresent: bool)
    ensures
      var (t, reply) := Next(s, Push(key, values, left, ifPresent));
      if key in s.dict && s.dict[key].Other? then t == s && reply == Error
      else
        var l := if key in s.dict then s.dict[key].elems else [];
        if l == [] && ifPresent then t == s && reply == Length(0)
        else
          var m := if key in t.dict && t.dict[key].List? then t.dict[key].elems else [];
          && Commits(s, t, {key}) && Holds(t.dict, key, m) && reply == Length(|m|) && |m| == |values| + |l|
          && (left ==> m[|values|..] == l && forall i | 0 <= i < |values| :: m[i] == values[|values| - 1 - i])
          && (!left ==> m == l + values)
  {
  }

  /** LPOP takes elements off the front in order, RPOP off the back, the last one first. */
  lemma TakeResult(s: State, key: Bytes, left: bool, args: seq<int>)
    ensures
      var (t, reply) := Next(s, Take(key, left, args));
      if |args| > 1 || (|args| == 1 && args[0] < 0) || (key in s.dict && s.dict[key].Other?) then t == s && reply == Error
      else
        var l := if key in s.dict then s.dict[key].elems else [];
        if l == [] then t == s && reply == Nil
        else
          && Commits(s, t, {key}) && reply.Taken?
          && |reply.elems| == (if args == [] then 1 else if args[0] <= |l| then args[0] else |l|)
          && var n := |reply.elems|;
             if left then reply.elems == l[..n] && Holds(t.dict, key, l[n..])
             else Holds(t.dict, key, l[..|l| - n]) && forall i | 0 <= i < n :: reply.elems[i] == l[|l| - 1 - i]
  {
    var l := Elems(s.dict, key);
    if IsCount(args) && l != [] {
      var cut := Cut(|l|, left, CountOf(args));
      CommittedResult(s, key, if left then l[cut..] else l[..cut]);
    }
  }

  /**
   RPOPLPUSH and LMOVE: the element at one end of the first list is the answer
   and goes to an end of the second list, or of what is left when they are one.
   */
  lemma MoveResult(s: State, src: Bytes, dst: Bytes, fromLeft: bool, toLeft: bool)
    ensures
      var (t, reply) := Next(s, Move(src, dst, fromLeft, toLeft));
      if src !in s.dict then t == s && reply == Nil
      else if s.dict[src].Other? || (dst in s.dict && s.dict[dst].Other?) then t == s && reply == Error
      else
        var l := s.dict[src].elems;
        l != [] ==>
          var x := if fromLeft then l[0] else l[|l| - 1];
          var rest := if fromLeft then l[1..] else l[..|l| - 1];
          var m := if src == dst then rest else if dst in s.dict then s.dict[dst].elems else [];
          && reply == Moved(x) && Commits(s, t, {src, dst})
          && (src != dst ==> Holds(t.dict, src, rest))
          && Holds(t.dict, dst, if toLeft then [x] + m else m + [x])
  {
    if src in s.dict && s.dict[src].List? && s.dict[src].elems != [] && (dst in s.dict ==> s.dict[dst].List?) {
      TransferredResult(s, src, dst, fromLeft, toLeft);
    }
  }

  lemma TransferredResult(s: State, src: Bytes, dst: Bytes, fromLeft: bool, toLeft: bool)
    requires src in s.dict && s.dict[src].List? && s.dict[src].elems != []
    requires dst in s.dict ==> s.dict[dst].List?
    ensures
      var t, l := Transferred(s, src, dst, fromLeft, toLeft), s.dict[src].elems;
      var x := if fromLeft then l[0] else l[|l| - 1];
      var rest := if fromLeft then l[1..] else l[..|l| - 1];
      var m := if src == dst then rest else if dst in s.dict then s.dict[dst].elems else [];
      && Commits(s, t, {src, dst}) && (src != dst ==> Holds(t.dict, src, rest))
      && Holds(t.dict, dst, if toLeft then [x] + m else m + [x])
  {
    var x := End(s.dict[src].elems, fromLeft);
    assert Reversed([x]) == [x];
  }

  /**
   A pass of BRPOPLPUSH: the last element of the source is the answer, and the
   first element of the destination from then on.
   */
  lemma PopPushResult(s: State, src: Bytes, dst: Bytes, first: bool)
    requires src in s.dict && s.dict[src].List? && s.dict[src].elems != []
    ensures
      var (t, reply) := Pass(s, PopPush(src, dst), first);
      if dst in s.dict && s.dict[dst].Other? then t == s && reply == Error
      else
        var l := s.dict[src].elems;
        var last, rest := l[|l| - 1], l[..|l| - 1];
        var m := if src == dst then rest else if dst in s.dict then s.dict[dst].elems else [];
        && reply == Moved(last) && Commits(s, t, {src, dst})
        && (src != dst ==> Holds(t.dict, src, rest)) && Holds(t.dict, dst, [last] + m)
  {
    if dst in s.dict ==> s.dict[dst].List? {
      TransferredResult(s, src, dst, false, true);
    }
  }

  /** With no list at the source, the answer is empty, or an error for another type on the first pass. */
  lemma PopPushWithoutSource(s: State, src: Bytes, dst: Bytes, first: bool)
    requires src in s.dict && s.dict[src].List? ==> s.dict[src].elems == []
    ensures Pass(s, PopPush(src, dst), first) == (s, if first && src in s.dict && s.dict[src].Other? then Error else Nil)
  {
  }

  /** The client sleeps, in its own operation, exactly when its pass gave nothing outside a transaction. */
  lemma BlockResult(s: State, client: nat, op: Op, inTransaction: bool)
    requires client !in s.asleep
    ensures
      var (t, reply) := Next(s, Block(client, op, inTransaction));
      if Pass(s, op, true).1 == Nil && !inTransaction then
        reply == Waiting && t.dict == Pass(s, op, true).0.dict && client in t.asleep && t.asleep[client] == Sleeper(op, false, None)
      else (t, reply) == Pass(s, op, true)
  {
  }

  /** A woken client goes on with its own operation, as if it were not asleep, and sleeps again if that gives nothing. */
  lemma WakeResult(s: State, client: nat)
    requires Enabled(s, Wake(client)) && s.asleep[client].reason.None?
    ensures
      var (t, reply) := Next(s, Wake(client));
      var op, others := s.asleep[client].op, State(s.dict, s.asleep - {client});
      if Pass(others, op, false).1 == Nil then
        reply == Waiting && client in t.asleep && t.asleep[client] == Sleeper(op, false, None)
      else (t, reply) == Pass(others, op, false)
  {
  }

  /** The client has not been woken, timed out or unblocked anew. */
  ghost predicate LeavesReason(step: Step, client: nat) {
    match step
    case Wake(c) => c != client
    case TimeOut(c) => c != client
    case Unblock(c, _) => c != client
    case _ => true
  }

  ghost predicate HasReason(s: State, client: nat, error: bool) {
    client in s.asleep && s.asleep[client].woken && s.asleep[client].reason == Some(error)
  }

  lemma StepLeavesReason(s: State, step: Step, client: nat, error: bool)
    requires Inv(s) && Enabled(s, step) && LeavesReason(step, client) && HasReason(s, client, error)
    ensures HasReason(Next(s, step).0, client, error)
  {
    match step
    case Block(c, op, _) =>
      PassFollows(s, op, true);
    case Wake(c) =>
      PassFollows(s.(asleep := s.asleep - {c}), s.asleep[c].op, false);
    case _ =>
  }

  /**
   CLIENT UNBLOCK of a client that sleeps: whatever the others do until it
   wakes, it gives up then, with an error or with an empty answer, and takes
   nothing; of any other client: nothing happens.
   */
  lemma {:induction false} UnblockedClientLeaves(s: State, client: nat, error: bool, later: seq<Step>)
    requires Inv(s) && forall i | 0 <= i < |later| :: LeavesReason(later[i], client)
    ensures client !in s.asleep ==> Next(s, Unblock(client, error)) == (s, Length(0))
    ensures client in s.asleep ==>
      var (t, answer) := Next(s, Unblock(client, error));
      var u := Run(t, later).0;
      && answer == Length(1) && Inv(u) && HasReason(u, client, error)
      && Next(u, Wake(client)) == (State(u.dict, u.asleep - {client}), if error then Error else Nil)
  {
    if client in s.asleep {
      var t := Next(s, Unblock(client, error)).0;
      StepKeepsInv(s, Unblock(client, error));
      if later != [] {
        UnblockedClientLeaves(s, client, error, later[..|later| - 1]);
        var v, step := Run(t, later[..|later| - 1]).0, later[|later| - 1];
        if Enabled(v, step) {
          StepKeepsInv(v, step);
          StepLeavesReason(v, step, client, error);
        }
      }
    }
  }

  /** A time-out takes the client away with an empty answer; any other command's write sets its key and wakes everyone. */
  lemma OtherResults(s: State, client: nat, key: Bytes, value: Option<Value>)
    ensures client in s.asleep ==> Next(s, TimeOut(client)) == (State(s.dict, s.asleep - {client}), Nil)
    ensures
      var t := Next(s, Overwrite(key, value)).0;
      && Commits(s, t, {key})
      && (if value.None? || value.value == List([]) then key !in t.dict else key in t.dict && t.dict[key] == value.value)
  {
  }

  // ---------- conservation ----------

  /** How often x occurs in a list. */
  function CountIn(l: seq<Bytes>, x: Bytes): nat {
    if l == [] then 0 else (if l[0] == x then 1 else 0) + CountIn(l[1..], x)
  }

  lemma {:induction false} CountOfSum(a: seq<Bytes>, b: seq<Bytes>, x: Bytes)
    ensures CountIn(a + b, x) == CountIn(a, x) + CountIn(b, x)
  {
    if a == [] {
      assert a + b == b;
    } else {
      CountOfSum(a[1..], b, x);
      assert (a + b)[1..] == a[1..] + b;
    }
  }

  lemma {:induction false} CountOfReversed(s: seq<Bytes>, x: Bytes)
    ensures CountIn(Reversed(s), x) == CountIn(s, x)
  {
    if s != [] {
      CountOfReversed(s[1..], x);
      CountOfSum(Reversed(s[1..]), [s[0]], x);
    }
  }

  /** How many copies of x are stored. */
  ghost function Copies(d: Dict, x: Bytes): nat
    decreases |d.Keys|
  {
    if d.Keys == {} then 0
    else
      var k :| k in d.Keys;
      assert (d - {k}).Keys == d.Keys - {k};
      CountIn(Elems(d, k), x) + Copies(d - {k}, x)
  }

  /** The count is the multiplicity, and nothing is stored in an empty database. */
  lemma {:induction false} CountIsMultiplicity(l: seq<Bytes>, x: Bytes)
    ensures CountIn(l, x) == multiset(l)[x] && Copies(map[], x) == 0
  {
    if l != [] {
      CountIsMultiplicity(l[1..], x);
      assert l == [l[0]] + l[1..];
    }
  }

  lemma {:induction false} CopiesWithout(d: Dict, key: Bytes, x: Bytes)
    ensures Copies(d, x) == CountIn(Elems(d, key), x) + Copies(d - {key}, x)
    decreases |d.Keys|
  {
    if key !in d {
      assert d - {key} == d;
    } else {
      var k :| k in d.Keys && Copies(d, x) == CountIn(Elems(d, k), x) + Copies(d - {k}, x);
      if k != key {
        var a, b := d - {k}, d - {key};
        assert a.Keys == d.Keys - {k} && b.Keys == d.Keys - {key} && a - {key} == b - {k};
        assert Elems(a, key) == Elems(d, key) && Elems(b, k) == Elems(d, k);
        CopiesWithout(a, key, x);
        CopiesWithout(b, k, x);
      }
    }
  }

  lemma CopiesOfStored(d: Dict, key: Bytes, elems: seq<Bytes>, x: Bytes)
    ensures Copies(Stored(d, key, elems), x) + CountIn(Elems(d, key), x) == Copies(d, x) + CountIn(elems, x)
  {
    CopiesWithout(d, key, x);
    CopiesWithout(Stored(d, key, elems), key, x);
    assert Stored(d, key, elems) - {key} == d - {key};
  }

  lemma CountOfExtended(l: seq<Bytes>, values: seq<Bytes>, left: bool, x: Bytes)
    ensures CountIn(Extended(l, values, left), x) == CountIn(l, x) + CountIn(values, x)
  {
    CountOfReversed(values, x);
    CountOfSum(Reversed(values), l, x);
    CountOfSum(l, values, x);
  }

  lemma CountOfRest(l: seq<Bytes>, left: bool, x: Bytes)
    requires l != []
    ensures CountIn(l, x) == CountIn(Rest(l, left), x) + CountIn([End(l, left)], x)
  {
    if left {
      assert l == [End(l, left)] + Rest(l, left);
      CountOfSum([End(l, left)], Rest(l, left), x);
    } else {
      assert l == Rest(l, left) + [End(l, left)];
      CountOfSum(Rest(l, left), [End(l, left)], x);
    }
  }

  /** The elements a step brings in. */
  function Given(step: Step, reply: Reply): seq<Bytes> {
    match step
    case Push(_, values, _, _) => if reply.Length? && reply.n > 0 then values else []
    case Overwrite(_, value) => if value.Some? && value.value.List? then value.value.elems else []
    case _ => []
  }

  /** The elements a reply hands out. */
  function Delivered(reply: Reply): seq<Bytes> {
    match reply
    case Popped(_, elem) => [elem]
    case Taken(elems) => elems
    case _ => []
  }

  /** The elements a step throws away. */
  function Discarded(d: Dict, step: Step): seq<Bytes> {
    if step.Overwrite? then Elems(d, step.key) else []
  }

  lemma TransferredConserves(s: State, src: Bytes, dst: Bytes, fromLeft: bool, toLeft: bool, x: Bytes)
    requires Elems(s.dict, src) != []
    ensures Copies(Transferred(s, src, dst, fromLeft, toLeft).dict, x) == Copies(s.dict, x)
  {
    var l := Elems(s.dict, src);
    var rest, el := Rest(l, fromLeft), End(l, fromLeft);
    CountOfRest(l, fromLeft, x);
    CopiesOfStored(s.dict, src, rest, x);
    if src == dst {
      CountOfExtended(rest, [el], toLeft, x);
      CopiesOfStored(s.dict, src, Extended(rest, [el], toLeft), x);
    } else {
      var d := Stored(s.dict, src, rest);
      assert Elems(d, dst) == Elems(s.dict, dst);
      CountOfExtended(Elems(d, dst), [el], toLeft, x);
      CopiesOfStored(d, dst, Extended(Elems(d, dst), [el], toLeft), x);
    }
  }

  lemma {:induction false} PopPassConserves(s: State, keys: seq<Bytes>, left: bool, first: bool, x: Bytes)
    ensures var (t, reply) := PopPass(s, keys, left, first);
      Copies(t.dict, x) + CountIn(Delivered(reply), x) == Copies(s.dict, x)
  {
    if keys != [] {
      PopPassConserves(s, keys[1..], left, first, x);
      var l := Elems(s.dict, keys[0]);
      if l != [] {
        CountOfRest(l, left, x);
        CopiesOfStored(s.dict, keys[0], Rest(l, left), x);
      }
    }
  }

  lemma PassConserves(s: State, op: Op, first: bool, x: Bytes)
    ensures var (t, reply) := Pass(s, op, first);
      Copies(t.dict, x) + CountIn(Delivered(reply), x) == Copies(s.dict, x)
  {
    match op
    case PopAny(keys, left) => PopPassConserves(s, keys, left, first, x);
    case PopPush(src, dst) =>
      if Elems(s.dict, src) != [] {
        TransferredConserves(s, src, dst, false, true, x);
      }
  }

  lemma TakeConserves(s: State, key: Bytes, left: bool, count: Option<nat>, x: Bytes)
    ensures var (t, reply) := TakeFrom(s, key, left, count);
      Copies(t.dict, x) + CountIn(Delivered(reply), x) == Copies(s.dict, x)
  {
    var l := Elems(s.dict, key);
    if l != [] {
      var cut := Cut(|l|, left, count);
      assert l == l[..cut] + l[cut..];
      SplitConserves(s.dict, key, l[..cut], l[cut..], x);
    }
  }

  lemma SplitConserves(d: Dict, key: Bytes, a: seq<Bytes>, b: seq<Bytes>, x: Bytes)
    requires Elems(d, key) == a + b
    ensures Copies(Stored(d, key, b), x) + CountIn(a, x) == Copies(d, x)
    ensures Copies(Stored(d, key, a), x) + CountIn(Reversed(b), x) == Copies(d, x)
  {
    CountOfSum(a, b, x);
    CountOfReversed(b, x);
    CopiesOfStored(d, key, a, x);
    CopiesOfStored(d, key, b, x);
  }

  lemma OverwriteConserves(d: Dict, key: Bytes, name: Bytes, x: Bytes)
    ensures Copies(d[key := Other(name)], x) + CountIn(Elems(d, key), x) == Copies(d, x)
  {
    CopiesWithout(d, key, x);
    CopiesWithout(d[key := Other(name)], key, x);
    assert d[key := Other(name)] - {key} == d - {key};
  }

  lemma PushConserves(d: Dict, key: Bytes, values: seq<Bytes>, left: bool, x: Bytes)
    ensures Copies(Stored(d, key, Extended(Elems(d, key), values, left)), x) == Copies(d, x) + CountIn(values, x)
  {
    CountOfExtended(Elems(d, key), values, left, x);
    CopiesOfStored(d, key, Extended(Elems(d, key), values, left), x);
  }

  /** Each step moves copies of an element between stored, delivered and discarded, and neither loses nor repeats any. */
  lemma StepConserves(s: State, step: Step, x: Bytes)
    requires Enabled(s, step)
    ensures var (t, reply) := Next(s, step);
      Copies(t.dict, x) + CountIn(Delivered(reply), x) + CountIn(Discarded(s.dict, step), x)
        == Copies(s.dict, x) + CountIn(Given(step, reply), x)
  {
    match step
    case Push(key, values, left, ifPresent) =>
      PushConserves(s.dict, key, values, left, x);
    case Take(key, left, args) =>
      if IsCount(args) {
        TakeConserves(s, key, left, CountOf(args), x);
      }
    case Move(src, dst, fromLeft, toLeft) =>
      if Elems(s.dict, src) != [] {
        TransferredConserves(s, src, dst, fromLeft, toLeft, x);
      }
    case Block(client, op, inTransaction) => PassConserves(s, op, true, x);
    case Wake(client) =>
      PassConserves(s.(asleep := s.asleep - {client}), s.asleep[client].op, false, x);
    case TimeOut(client) =>
    case Unblock(client, error) =>
    case Overwrite(key, value) =>
      if value.Some? && value.value.Other? {
        OverwriteConserves(s.dict, key, value.value.name, x);
      } else {
        CopiesOfStored(s.dict, key, if value.Some? then value.value.elems else [], x);
      }
  }

  /** Copies of x brought in, delivered, and thrown away over a run. */
  datatype Ledger = Ledger(given: nat, delivered: nat, discarded: nat)

  function Account(s: State, steps: seq<Step>, x: Bytes): Ledger
    decreases |steps|
  {
    if steps == [] then Ledger(0, 0, 0)
    else
      var before := Account(s, steps[..|steps| - 1], x);
      var t := Run(s, steps[..|steps| - 1]).0;
      var step := steps[|steps| - 1];
      if !Enabled(t, step) then before
      else
        var reply := Next(t, step).1;
        Ledger(before.given + CountIn(Given(step, reply), x), before.delivered + CountIn(Delivered(reply), x),
               before.discarded + CountIn(Discarded(t.dict, step), x))
  }

  /** Over any run, for every element: the copies stored or brought in are those stored, delivered or discarded. */
  lemma {:induction false} RunConserves(s: State, steps: seq<Step>, x: Bytes)
    ensures var a := Account(s, steps, x);
      Copies(s.dict, x) + a.given == Copies(Run(s, steps).0.dict, x) + a.delivered + a.discarded
  {
    if steps != [] {
      RunConserves(s, steps[..|steps| - 1], x);
      var t := Run(s, steps[..|steps| - 1]).0;
      if Enabled(t, steps[|steps| - 1]) {
        StepConserves(t, steps[|steps| - 1], x);
      }
    }
  }

  // ---------- order ----------

  /** The list as seen from the end it is popped at. */
  function Seen(l: seq<Bytes>, left: bool): seq<Bytes> {
    if left then l else Reversed(l)
  }

  /** The operation leaves the list at k alone, or pops it at the given end and pushes to it at the other one. */
  ghost predicate PopsAt(op: Op, k: Bytes, left: bool) {
    match op
    case PopAny(keys, l) => l == left || k !in keys
    case PopPush(src, dst) => !left || (src != k && dst != k)
  }

  /** The step uses the list at k as a queue, popped at the given end, or not at all. */
  ghost predicate Queues(step: Step, k: Bytes, left: bool) {
    match step
    case Push(key, _, l, _) => key == k ==> l != left
    case Take(key, l, _) => key == k ==> l == left
    case Move(src, dst, fromLeft, toLeft) => (src == k ==> fromLeft == left) && (dst == k ==> toLeft != left)
    case Block(_, op, _) => PopsAt(op, k, left)
    case Overwrite(key, _) => key != k
    case _ => true
  }

  ghost predicate AllPopAt(s: State, k: Bytes, left: bool) {
    forall c | c in s.asleep :: PopsAt(s.asleep[c].op, k, left)
  }

  /** What an operation that got this reply has pushed to the list at k, and what it has popped from it. */
  function OpPushed(op: Op, reply: Reply, k: Bytes): seq<Bytes> {
    if op.PopPush? && op.dst == k && reply.Moved? then [reply.elem] else []
  }

  function OpPopped(op: Op, reply: Reply, k: Bytes): seq<Bytes> {
    match reply
    case Popped(key, elem) => if key == k then [elem] else []
    case Moved(elem) => if op.PopPush? && op.src == k then [elem] else []
    case _ => []
  }

  function PushedTo(s: State, step: Step, reply: Reply, k: Bytes): seq<Bytes>
    requires Enabled(s, step)
  {
    match step
    case Push(key, values, _, _) => if key == k && reply.Length? && reply.n > 0 then values else []
    case Move(_, dst, _, _) => if dst == k && reply.Moved? then [reply.elem] else []
    case Block(_, op, _) => OpPushed(op, reply, k)
    case Wake(c) => OpPushed(s.asleep[c].op, reply, k)
    case _ => []
  }

  function PoppedFrom(s: State, step: Step, reply: Reply, k: Bytes): seq<Bytes>
    requires Enabled(s, step)
  {
    match step
    case Take(key, _, _) => if key == k && reply.Taken? then reply.elems else []
    case Move(src, _, _, _) => if src == k && reply.Moved? then [reply.elem] else []
    case Block(_, op, _) => OpPopped(op, reply, k)
    case Wake(c) => OpPopped(s.asleep[c].op, reply, k)
    case _ => []
  }

  lemma ReversedSum(a: seq<Bytes>, b: seq<Bytes>)
    ensures Reversed(a + b) == Reversed(b) + Reversed(a)
  {
    var r, q := Reversed(a + b), Reversed(b) + Reversed(a);
    forall i | 0 <= i < |r| ensures r[i] == q[i] {
      assert r[i] == (a + b)[|a| + |b| - 1 - i];
    }
  }

  lemma ReversedTwice(a: seq<Bytes>)
    ensures Reversed(Reversed(a)) == a
  {
    forall i | 0 <= i < |a| ensures Reversed(Reversed(a))[i] == a[i] {
      assert Reversed(Reversed(a))[i] == Reversed(a)[|a| - 1 - i];
    }
  }

  lemma SeenPop(l: seq<Bytes>, left: bool)
    requires l != []
    ensures Seen(l, left) == [End(l, left)] + Seen(Rest(l, left), left)
  {
    if left {
      assert l == [l[0]] + l[1..];
    } else {
      assert l == l[..|l| - 1] + [l[|l| - 1]];
      ReversedSum(l[..|l| - 1], [l[|l| - 1]]);
    }
  }

  lemma SeenPush(l: seq<Bytes>, values: seq<Bytes>, left: bool)
    ensures Seen(Extended(l, values, !left), left) == Seen(l, left) + values
  {
    if !left {
      ReversedSum(Reversed(values), l);
      ReversedTwice(values);
    }
  }

  /** A pass leaves everything as it is, or pops from one of its keys. */
  lemma {:induction false} PopPassOutcome(s: State, keys: seq<Bytes>, left: bool, first: bool)
    ensures
      var (t, reply) := PopPass(s, keys, left, first);
      if reply.Popped? then
        var l := Elems(s.dict, reply.key);
        reply.key in keys && l != [] && t == Committed(s, reply.key, Rest(l, left)) && reply.elem == End(l, left)
      else t == s && (reply == Nil || reply == Error)
  {
    if keys != [] {
      PopPassOutcome(s, keys[1..], left, first);
    }
  }

  lemma PopPassInOrder(s: State, keys: seq<Bytes>, left: bool, first: bool, k: Bytes, end: bool)
    requires left == end || k !in keys
    ensures var (t, reply) := PopPass(s, keys, left, first);
      Seen(Elems(s.dict, k), end) == OpPopped(PopAny(keys, left), reply, k) + Seen(Elems(t.dict, k), end)
  {
    PopPassOutcome(s, keys, left, first);
    var reply := PopPass(s, keys, left, first).1;
    if reply.Popped? {
      PopInOrder(s, reply.key, left, k, end);
    }
  }

  lemma PopInOrder(s: State, key: Bytes, left: bool, k: Bytes, end: bool)
    requires Elems(s.dict, key) != [] && (left == end || k != key)
    ensures
      var l := Elems(s.dict, key);
      var t := Committed(s, key, Rest(l, left));
      Seen(Elems(s.dict, k), end) == (if key == k then [End(l, left)] else []) + Seen(Elems(t.dict, k), end)
  {
    SeenPop(Elems(s.dict, key), left);
    StoredElems(s.dict, key, Rest(Elems(s.dict, key), left), k);
  }

  lemma StoredElems(d: Dict, key: Bytes, l: seq<Bytes>, k: Bytes)
    ensures Elems(Stored(d, key, l), k) == if key == k then l else Elems(d, k)
  {
  }

  lemma TransferredElems(s: State, src: Bytes, dst: Bytes, fromLeft: bool, toLeft: bool, k: Bytes)
    requires Elems(s.dict, src) != []
    ensures
      var t, l := Transferred(s, src, dst, fromLeft, toLeft), Elems(s.dict, src);
      var left := if src == k then Rest(l, fromLeft) else Elems(s.dict, k);
      Elems(t.dict, k) == if dst == k then Extended(left, [End(l, fromLeft)], toLeft) else left
  {
  }

  lemma TransferInOrder(s: State, src: Bytes, dst: Bytes, fromLeft: bool, toLeft: bool, k: Bytes, end: bool)
    requires Elems(s.dict, src) != [] && (src == k ==> fromLeft == end) && (dst == k ==> toLeft != end)
    ensures
      var t, x := Transferred(s, src, dst, fromLeft, toLeft), End(Elems(s.dict, src), fromLeft);
      Seen(Elems(s.dict, k), end) + (if dst == k then [x] else []) == (if src == k then [x] else []) + Seen(Elems(t.dict, k), end)
  {
    var l := Elems(s.dict, src);
    var left := if src == k then Rest(l, fromLeft) else Elems(s.dict, k);
    TransferredElems(s, src, dst, fromLeft, toLeft, k);
    SeenPop(l, fromLeft);
    SeenPush(left, [End(l, fromLeft)], end);
    ThroughQueue(Seen(Elems(s.dict, k), end), Seen(left, end), End(l, fromLeft), src == k, dst == k);
  }

  lemma ThroughQueue(whole: seq<Bytes>, left: seq<Bytes>, x: Bytes, popped: bool, pushed: bool)
    requires whole == if popped then [x] + left else left
    ensures whole + (if pushed then [x] else []) == (if popped then [x] else []) + if pushed then left + [x] else left
  {
  }

  lemma PassInOrder(s: State, op: Op, first: bool, k: Bytes, end: bool)
    requires PopsAt(op, k, end)
    ensures var (t, reply) := Pass(s, op, first);
      Seen(Elems(s.dict, k), end) + OpPushed(op, reply, k) == OpPopped(op, reply, k) + Seen(Elems(t.dict, k), end)
  {
    var reply := Pass(s, op, first).1;
    match op
    case PopAny(keys, left) => PopPassInOrder(s, keys, left, first, k, end);
    case PopPush(src, dst) =>
      if reply.Moved? {
        TransferInOrder(s, src, dst, false, true, k, end);
      } else {
        NothingThroughQueue(Seen(Elems(s.dict, k), end));
      }
  }

  lemma SeenSplit(l: seq<Bytes>, cut: nat)
    requires cut <= |l|
    ensures l == l[..cut] + l[cut..]
    ensures Reversed(l) == Reversed(l[cut..]) + Reversed(l[..cut])
  {
    assert l == l[..cut] + l[cut..];
    ReversedSum(l[..cut], l[cut..]);
  }

  lemma TakeInOrder(s: State, key: Bytes, left: bool, args: seq<int>, k: Bytes, end: bool)
    requires (key == k ==> left == end) && IsCount(args)
    ensures var (t, reply) := TakeFrom(s, key, left, CountOf(args));
      Seen(Elems(s.dict, k), end) == PoppedFrom(s, Take(key, left, args), reply, k) + Seen(Elems(t.dict, k), end)
  {
    var l := Elems(s.dict, key);
    if l != [] {
      var cut := Cut(|l|, left, CountOf(args));
      SeenSplit(l, cut);
      StoredElems(s.dict, key, if left then l[cut..] else l[..cut], k);
    }
  }

  lemma PushInOrder(s: State, key: Bytes, values: seq<Bytes>, left: bool, ifPresent: bool, k: Bytes, end: bool)
    requires key == k ==> left != end
    ensures
      var step := Push(key, values, left, ifPresent);
      var (t, reply) := Next(s, step);
      Seen(Elems(s.dict, k), end) + PushedTo(s, step, reply, k) == Seen(Elems(t.dict, k), end)
  {
    var l, seen := Elems(s.dict, key), Seen(Elems(s.dict, k), end);
    assert seen + [] == seen;
    StoredElems(s.dict, key, Extended(l, values, left), k);
    SeenPush(l, values, end);
  }

  /** What a step pops comes off one end of the queue, and what it pushes goes on at the other. */
  lemma StepInOrder(s: State, step: Step, k: Bytes, end: bool)
    requires Inv(s) && Enabled(s, step) && Queues(step, k, end) && AllPopAt(s, k, end)
    ensures var (t, reply) := Next(s, step);
      Seen(Elems(s.dict, k), end) + PushedTo(s, step, reply, k) == PoppedFrom(s, step, reply, k) + Seen(Elems(t.dict, k), end)
  {
    match step
    case Push(key, values, left, ifPresent) => PushInOrder(s, key, values, left, ifPresent, k, end);
    case Take(key, left, args) =>
      if IsCount(args) {
        TakeInOrder(s, key, left, args, k, end);
      }
    case Move(src, dst, fromLeft, toLeft) => MoveInOrder(s, src, dst, fromLeft, toLeft, k, end);
    case Block(client, op, inTransaction) => BlockInOrder(s, client, op, inTransaction, k, end);
    case Wake(client) => WakeInOrder(s, client, k, end);
    case _ => OthersLeaveList(s, step, k);
  }

  lemma MoveInOrder(s: State, src: Bytes, dst: Bytes, fromLeft: bool, toLeft: bool, k: Bytes, end: bool)
    requires (src == k ==> fromLeft == end) && (dst == k ==> toLeft != end)
    ensures
      var step := Move(src, dst, fromLeft, toLeft);
      var (t, reply) := Next(s, step);
      Seen(Elems(s.dict, k), end) + PushedTo(s, step, reply, k) == PoppedFrom(s, step, reply, k) + Seen(Elems(t.dict, k), end)
  {
    var step := Move(src, dst, fromLeft, toLeft);
    var (t, reply) := Next(s, step);
    if reply.Moved? {
      assert PushedTo(s, step, reply, k) == if dst == k then [reply.elem] else [];
      assert PoppedFrom(s, step, reply, k) == if src == k then [reply.elem] else [];
      TransferInOrder(s, src, dst, fromLeft, toLeft, k, end);
    } else {
      assert t == s && PushedTo(s, step, reply, k) == [] == PoppedFrom(s, step, reply, k);
      NothingThroughQueue(Seen(Elems(s.dict, k), end));
    }
  }

  lemma NothingThroughQueue(l: seq<Bytes>)
    ensures l + [] == [] + l
  {
  }

  lemma BlockInOrder(s: State, client: nat, op: Op, inTransaction: bool, k: Bytes, end: bool)
    requires PopsAt(op, k, end)
    ensures var (t, reply) := Started(s, client, op, inTransaction);
      Seen(Elems(s.dict, k), end) + OpPushed(op, reply, k) == OpPopped(op, reply, k) + Seen(Elems(t.dict, k), end)
  {
    PassInOrder(s, op, true, k, end);
  }

  lemma WakeInOrder(s: State, client: nat, k: Bytes, end: bool)
    requires client in s.asleep && PopsAt(s.asleep[client].op, k, end)
    ensures
      var op := s.asleep[client].op;
      var (t, reply) := Retried(s, client);
      Seen(Elems(s.dict, k), end) + OpPushed(op, reply, k) == OpPopped(op, reply, k) + Seen(Elems(t.dict, k), end)
  {
    var me := s.asleep[client];
    if me.reason.Some? {
      NothingThroughQueue(Seen(Elems(s.dict, k), end));
    } else {
      PassInOrder(s.(asleep := s.asleep - {client}), me.op, false, k, end);
      assert OpPushed(me.op, Nil, k) == OpPushed(me.op, Waiting, k) == [];
      assert OpPopped(me.op, Nil, k) == OpPopped(me.op, Waiting, k) == [];
    }
  }

  lemma OthersLeaveList(s: State, step: Step, k: Bytes)
    requires Enabled(s, step) && (step.Overwrite? ==> step.key != k)
    requires step.TimeOut? || step.Unblock? || step.Overwrite?
    ensures var (t, reply) := Next(s, step);
      && Elems(t.dict, k) == Elems(s.dict, k)
      && PoppedFrom(s, step, reply, k) == [] && PushedTo(s, step, reply, k) == []
  {
  }

  lemma StepKeepsPopAt(s: State, step: Step, k: Bytes, end: bool)
    requires Inv(s) && Enabled(s, step) && Queues(step, k, end) && AllPopAt(s, k, end)
    ensures AllPopAt(Next(s, step).0, k, end)
  {
    match step
    case Block(client, op, inTransaction) => PassFollows(s, op, true);
    case Wake(client) => PassFollows(s.(asleep := s.asleep - {client}), s.asleep[client].op, false);
    case _ =>
  }

  function PushedOver(s: State, steps: seq<Step>, k: Bytes): seq<Bytes>
    decreases |steps|
  {
    if steps == [] then []
    else
      var t := Run(s, steps[..|steps| - 1]).0;
      var step := steps[|steps| - 1];
      PushedOver(s, steps[..|steps| - 1], k) + if Enabled(t, step) then PushedTo(t, step, Next(t, step).1, k) else []
  }

  function PoppedOver(s: State, steps: seq<Step>, k: Bytes): seq<Bytes>
    decreases |steps|
  {
    if steps == [] then []
    else
      var t := Run(s, steps[..|steps| - 1]).0;
      var step := steps[|steps| - 1];
      PoppedOver(s, steps[..|steps| - 1], k) + if Enabled(t, step) then PoppedFrom(t, step, Next(t, step).1, k) else []
  }

  /**
   A key pushed at one end and popped at the other, by blocked clients, moves
   or others, delivers its elements in the order of the pushes.
   */
  lemma {:induction false} RunInOrder(s: State, steps: seq<Step>, k: Bytes, end: bool)
    requires Inv(s) && AllPopAt(s, k, end)
    requires forall i | 0 <= i < |steps| :: Queues(steps[i], k, end)
    ensures Seen(Elems(s.dict, k), end) + PushedOver(s, steps, k) ==
            PoppedOver(s, steps, k) + Seen(Elems(Run(s, steps).0.dict, k), end)
    ensures AllPopAt(Run(s, steps).0, k, end)
  {
    if steps != [] {
      var before := steps[..|steps| - 1];
      var step := steps[|steps| - 1];
      RunInOrder(s, before, k, end);
      NoLostWakeup(s, before);
      var t := Run(s, before).0;
      if Enabled(t, step) {
        StepInOrder(t, step, k, end);
        StepKeepsPopAt(t, step, k, end);
        Regroup(Seen(Elems(s.dict, k), end), PushedOver(s, before, k), PushedTo(t, step, Next(t, step).1, k),
                PoppedOver(s, before, k), Seen(Elems(t.dict, k), end),
                PoppedFrom(t, step, Next(t, step).1, k), Seen(Elems(Next(t, step).0.dict, k), end));
      } else {
        assert PushedOver(s, steps, k) == PushedOver(s, before, k) && PoppedOver(s, steps, k) == PoppedOver(s, before, k);
      }
    }
  }

  lemma Regroup(a: seq<Bytes>, b: seq<Bytes>, c: seq<Bytes>, p: seq<Bytes>, l: seq<Bytes>, q: seq<Bytes>, m: seq<Bytes>)
    requires a + b == p + l && l + c == q + m
    ensures a + (b + c) == (p + q) + m
  {
    assert a + (b + c) == (a + b) + c;
    assert (p + l) + c == p + (l + c);
    assert p + (q + m) == (p + q) + m;
  }

  // ---------- a write that does not notify ----------

  ghost predicate WaitsFor(op: Op, k: Bytes) {
    match op
    case PopAny(keys, _) => k in keys
    case PopPush(src, _) => src == k
  }

  /** MOVE puts a list into this database without notifying its sleepers. */
  function MovedIn(s: State, key: Bytes, elems: seq<Bytes>): State {
    s.(dict := s.dict[key := List(elems)])
  }

  /** MOVE loses a wake-up exactly when a client sleeps on the key with no wake-up pending. */
  lemma MovedInKeepsInvIff(s: State, key: Bytes, elems: seq<Bytes>)
    requires Inv(s) && key !in s.dict && elems != []
    ensures Inv(MovedIn(s, key, elems)) <==>
      forall c | c in s.asleep && !s.asleep[c].woken :: !WaitsFor(s.asleep[c].op, key)
  {
  }

  /** A client that sleeps in BLPOP on a key stays asleep when MOVE brings a list there. */
  lemma MoveLosesWakeup(client: nat, key: Bytes, elem: Bytes)
    ensures var s := Run(State(map[], map[]), [Block(client, PopAny([key], true), false)]).0;
      Inv(s) && !Inv(MovedIn(s, key, [elem]))
  {
    var start := State(map[], map[]);
    var step := Block(client, PopAny([key], true), false);
    NoLostWakeup(start, [step]);
    RunFirst(start, step, []);
    assert [step] + [] == [step];
    assert [key][1..] == [];
    assert PopPass(start, [key], true, true) == (start, Nil);
    var s := Run(start, [step]).0;
    assert s == Next(start, step).0;
    assert s.asleep[client] == Sleeper(PopAny([key], true), false, None);
    MovedInKeepsInvIff(s, key, [elem]);
    assert key in [key];
  }

  // ---------- the commands ----------

  /** Values are inserted one at a time at the same end. */
  method InsertAll(value: seq<Bytes>, values: seq<Bytes>, left: bool) returns (r: seq<Bytes>)
    ensures r == Extended(value, values, left)
  {
    r := value;
    for i := 0 to |values|
      invariant r == Extended(value, values[..i], left)
    {
      ReversedOneMore(values, i);
      if left {
        assert Extended(value, values[..i + 1], left) == [values[i]] + Reversed(values[..i]) + value;
        r := [values[i]] + r;
      } else {
        r := r + [values[i]];
      }
    }
    assert values[..|values|] == values;
  }

  class Database {
    var dict: Dict
    var asleep: map<nat, Sleeper>

    constructor ()
      ensures Now() == State(map[], map[]) && Inv(Now())
    {
      dict, asleep := map[], map[];
    }

    function Now(): State
      reads this
    {
      State(dict, asleep)
    }

    /** CommandItem.writeback of a modified list. */
    method Writeback(key: Bytes, elems: seq<Bytes>)
      modifies this
      ensures Now() == Committed(old(Now()), key, elems)
    {
      asleep := AllWoken(asleep);
      if elems == [] {
        dict := dict - {key};
      } else {
        dict := dict[key := List(elems)];
      }
    }

    method BpopPass(keys: seq<Bytes>, left: bool, firstPass: bool) returns (reply: Reply)
      modifies this
      ensures (Now(), reply) == PopPass(old(Now()), keys, left, firstPass)
    {
      for i := 0 to |keys|
        invariant Now() == old(Now())
        invariant PopPass(Now(), keys[i..], left, firstPass) == PopPass(Now(), keys, left, firstPass)
      {
        assert keys[i..][0] == keys[i] && keys[i..][1..] == keys[i + 1..];
        if IsOther(dict, keys[i]) {
          if firstPass {
            return Error;
          }
          continue;
        }
        var value := Elems(dict, keys[i]);
        if value != [] {
          var elem := End(value, left);
          value := Rest(value, left);
          Writeback(keys[i], value);
          return Popped(keys[i], elem);
        }
      }
      reply := Nil;
    }

    method BrpoplpushPass(source: Bytes, destination: Bytes, firstPass: bool) returns (reply: Reply)
      modifies this
      ensures (Now(), reply) == PopPushPass(old(Now()), source, destination, firstPass)
    {
      if IsOther(dict, source) {
        return if firstPass then Error else Nil;
      }
      var src := Elems(dict, source);
      if src == [] {
        return Nil;
      }
      if IsOther(dict, destination) {
        return Error;
      }
      var elem := src[|src| - 1];
      src := src[..|src| - 1];
      var dst := if source == destination then src else Elems(dict, destination);  // one list object when the keys agree
      dst := [elem] + dst;
      assert dst == Extended(if source == destination then src else Elems(dict, destination), [elem], true) by {
        assert Reversed([elem]) == [elem];
      }
      if destination != source {
        Writeback(source, src);
      }
      Writeback(destination, dst);
      reply := Moved(elem);
    }

    method RunPass(op: Op, firstPass: bool) returns (reply: Reply)
      modifies this
      ensures (Now(), reply) == Pass(old(Now()), op, firstPass)
    {
      match op
      case PopAny(keys, left) => reply := BpopPass(keys, left, firstPass);
      case PopPush(src, dst) => reply := BrpoplpushPass(src, dst, firstPass);
    }

    /** The first pass of _blocking; Waiting when the client goes to sleep. */
    method Start(client: nat, op: Op, inTransaction: bool) returns (reply: Reply)
      requires client !in asleep
      modifies this
      ensures (Now(), reply) == Next(old(Now()), Block(client, op, inTransaction))
    {
      reply := RunPass(op, true);
      if reply == Nil && !inTransaction {
        asleep := asleep[client := Sleeper(op, false, None)];
        reply := Waiting;
      }
    }

    /** One turn of the loop in _blocking after a notification. */
    method Retry(client: nat) returns (reply: Reply)
      requires client in asleep && asleep[client].woken
      modifies this
      ensures (Now(), reply) == Next(old(Now()), Wake(client))
    {
      var me := asleep[client];
      asleep := asleep - {client};
      if me.reason.Some? {
        return if me.reason.value then Error else Nil;
      }
      reply := RunPass(me.op, false);
      if reply == Nil {
        asleep := asleep[client := me.(woken := false)];
        reply := Waiting;
      }
    }

    method ClientUnblock(client: nat, error: bool) returns (reply: Reply)
      modifies this
      ensures (Now(), reply) == Next(old(Now()), Unblock(client, error))
    {
      if client !in asleep {
        return Length(0);
      }
      asleep := asleep[client := asleep[client].(reason := Some(error))];
      asleep := AllWoken(asleep);
      ghost var all := AllWoken(old(asleep));
      assert asleep == all[client := all[client].(reason := Some(error))];
      reply := Length(1);
    }

    /** LPUSH, RPUSH, and their X forms. */
    method PushValues(key: Bytes, values: seq<Bytes>, left: bool, ifPresent: bool) returns (reply: Reply)
      modifies this
      ensures (Now(), reply) == Next(old(Now()), Push(key, values, left, ifPresent))
    {
      if IsOther(dict, key) {
        return Error;
      }
      var value := Elems(dict, key);
      if ifPresent && value == [] {
        return Length(0);
      }
      value := InsertAll(value, values, left);
      Writeback(key, value);
      reply := Length(|value|);
    }

    /** RPOPLPUSH and LMOVE; when the keys agree both items hold one list, and it is written back twice. */
    method MoveElement(src: Bytes, dst: Bytes, fromLeft: bool, toLeft: bool) returns (reply: Reply)
      modifies this
      ensures (Now(), reply) == Next(old(Now()), Move(src, dst, fromLeft, toLeft))
    {
      if src !in dict {
        return Nil;
      }
      if IsOther(dict, src) || IsOther(dict, dst) {
        return Error;
      }
      var first := Elems(dict, src);
      if first == [] {
        return Nil;
      }
      var elem := End(first, fromLeft);
      first := Rest(first, fromLeft);
      var second := if src == dst then first else Elems(dict, dst);
      assert Reversed([elem]) == [elem];
      ghost var onto := second;
      second := if toLeft then [elem] + second else second + [elem];
      assert second == Extended(onto, [elem], toLeft);
      WokenTwice(asleep);
      if src == dst {
        first := second;
      }
      Writeback(src, first);
      assert src == dst ==> Committed(Now(), src, second) == Now();
      Writeback(dst, second);
      reply := Moved(elem);
    }

    /** LPOP and RPOP, with their optional count; the argument list is as the client sent it. */
    method PopValues(key: Bytes, left: bool, args: seq<int>) returns (reply: Reply)
      modifies this
      ensures (Now(), reply) == Next(old(Now()), Take(key, left, args))
    {
      var n := 1;
      if |args| > 1 {
        return Error;
      } else if |args| == 1 {
        n := args[0];
        if n < 0 {
          return Error;
        }
      }
      if IsOther(dict, key) {
        return Error;
      }
      var value := Elems(dict, key);
      if value == [] {
        return Nil;
      }
      if n > |value| {
        n := |value|;
      }
      if left {
        reply := Taken(value[..n]);
        value := value[n..];
      } else {
        reply := Taken(Reversed(value[|value| - n..]));
        value := value[..|value| - n];
      }
      Writeback(key, value);
    }
  }

  lemma ReversedOneMore(values: seq<Bytes>, i: nat)
    requires i < |values|
    ensures values[..i + 1] == values[..i] + [values[i]]
    ensures Reversed(values[..i + 1]) == [values[i]] + Reversed(values[..i])
  {
  }
}
