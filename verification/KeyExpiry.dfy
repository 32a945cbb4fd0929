/**
 Lazy expiry of whole keys: the database drops an expired item only when it is
 looked up or iterated over, and must look as if it dropped it at once.
 */
module KeyExpiry {
  import opened Bytes
  import opened Options

  datatype Item = Item(value: Bytes, expireat: Option<real>)

  type Dict = map<Bytes, Item>

  predicate Expired(item: Item, now: real) {
    item.expireat.Some? && item.expireat.value < now
  }

  /** The items that have not expired. */
  function Live(dict: Dict, now: real): Dict {
    map k | k in dict && !Expired(dict[k], now) :: dict[k]
  }

  datatype Event = Tick(now: real) | Lookup(k: Bytes) | Store(k: Bytes, item: Item) | Pop(k: Bytes) | Iterate | Length

  datatype Answer = Nothing | Found(item: Item) | KeyError | Keys(keys: set<Bytes>) | Count(n: nat)

  datatype State = State(dict: Dict, now: real)

  // ---------- the lazy database ----------

  class Database {
    var dict: Dict
    var time: real

    constructor ()
      ensures Abs() == State(map[], 0.0)
    {
      dict, time := map[], 0.0;
    }

    function Abs(): State
      reads this
    {
      State(dict, time)
    }

    method RemoveExpired()
      modifies this`dict
      ensures dict == Live(old(dict), time)
    {
      var keys := dict.Keys;
      while keys != {}
        invariant keys <= dict.Keys <= old(dict).Keys
        invariant forall k | k in dict :: dict[k] == old(dict)[k]
        invariant forall k | k in old(dict) && k !in keys :: k in dict <==> !Expired(old(dict)[k], time)
        decreases keys
      {
        var k :| k in keys;
        if Expired(dict[k], time) {
          dict := dict - {k};
        }
        keys := keys - {k};
      }
    }

    method GetItem(k: Bytes) returns (r: Answer)
      modifies this`dict
      ensures (Abs(), r) == LazyStep(old(Abs()), Lookup(k))
    {
      if k !in dict {
        return KeyError;
      }
      var item := dict[k];
      if Expired(item, time) {
        dict := dict - {k};
        return KeyError;
      }
      return Found(item);
    }

    method SetItem(k: Bytes, item: Item)
      modifies this`dict
      ensures (Abs(), Nothing) == LazyStep(old(Abs()), Store(k, item))
    {
      dict := dict[k := item];
    }

    method DelItem(k: Bytes) returns (r: Answer)
      modifies this`dict
      ensures r == if k in old(dict) then Nothing else KeyError
      ensures dict == old(dict) - {k}
    {
      if k !in dict {
        return KeyError;
      }
      dict := dict - {k};
      return Nothing;
    }

    /** pop(k, None), as a mapping has it: a lookup, and then a deletion if that found something. */
    method PopItem(k: Bytes) returns (r: Answer)
      modifies this`dict
      ensures (Abs(), r) == LazyStep(old(Abs()), Pop(k))
    {
      r := GetItem(k);
      if r == KeyError {
        assert dict == old(dict) - {k};
        return Nothing;
      }
      var _ := DelItem(k);
    }

    method Iter() returns (keys: set<Bytes>)
      modifies this`dict
      ensures (Abs(), Keys(keys)) == LazyStep(old(Abs()), Iterate)
    {
      RemoveExpired();
      keys := dict.Keys;
    }

    method Len() returns (n: nat)
      modifies this`dict
      ensures (Abs(), Count(n)) == LazyStep(old(Abs()), Length)
    {
      RemoveExpired();
      n := |dict|;
    }
  }

  function LazyStep(s: State, e: Event): (State, Answer) {
    match e
    case Tick(now) => (s.(now := now), Nothing)
    case Lookup(k) =>
      if k !in s.dict then (s, KeyError)
      else if Expired(s.dict[k], s.now) then (s.(dict := s.dict - {k}), KeyError)
      else (s, Found(s.dict[k]))
    case Store(k, item) => (s.(dict := s.dict[k := item]), Nothing)
    case Pop(k) =>
      (s.(dict := s.dict - {k}), if k in s.dict && !Expired(s.dict[k], s.now) then Found(s.dict[k]) else Nothing)
    case Iterate => var d := Live(s.dict, s.now); (s.(dict := d), Keys(d.Keys))
    case Length => var d := Live(s.dict, s.now); (s.(dict := d), Count(|d|))
  }

  /** An item is found until the clock is past its time, whether or not anything has noticed. */
  lemma FoundIff(s: State, k: Bytes, item: Item)
    ensures LazyStep(s, Lookup(k)).1 == Found(item) <==>
            k in s.dict && s.dict[k] == item && (item.expireat.Some? ==> s.now <= item.expireat.value)
    ensures LazyStep(s, Lookup(k)).1 != Found(item) ==> LazyStep(s, Lookup(k)).1.Found? || LazyStep(s, Lookup(k)).1 == KeyError
  {
  }

  // ---------- the eager map it stands for ----------

  /** A map that is purged at every tick and after every store. */
  function EagerStep(s: State, e: Event): (State, Answer) {
    match e
    case Tick(now) => (State(Live(s.dict, now), now), Nothing)
    case Lookup(k) => (s, if k in s.dict then Found(s.dict[k]) else KeyError)
    case Store(k, item) => (s.(dict := Live(s.dict[k := item], s.now)), Nothing)
    case Pop(k) => (s.(dict := s.dict - {k}), if k in s.dict then Found(s.dict[k]) else Nothing)
    case Iterate => (s, Keys(s.dict.Keys))
    case Length => (s, Count(|s.dict|))
  }

  ghost predicate Refines(lazy: State, eager: State) {
    lazy.now == eager.now && eager.dict == Live(lazy.dict, lazy.now)
  }

  /** Time does not run backwards. */
  predicate Proper(s: State, e: Event) {
    e.Tick? ==> e.now >= s.now
  }

  /** Every proper step keeps the refinement and gives the same answer. */
  lemma StepRefines(lazy: State, eager: State, e: Event)
    requires Refines(lazy, eager) && Proper(lazy, e)
    ensures Refines(LazyStep(lazy, e).0, EagerStep(eager, e).0)
    ensures LazyStep(lazy, e).1 == EagerStep(eager, e).1
  {
    match e
    case Pop(k) => LiveOfRemoved(lazy.dict, k, lazy.now);
    case Lookup(k) => LiveOfRemoved(lazy.dict, k, lazy.now);
    case Store(k, item) => LiveOfStored(lazy.dict, k, item, lazy.now);
    case Tick(now) => assert Live(Live(lazy.dict, lazy.now), now) == Live(lazy.dict, now);
    case _ => assert Live(Live(lazy.dict, lazy.now), lazy.now) == Live(lazy.dict, lazy.now);
  }

  lemma LiveOfRemoved(dict: Dict, k: Bytes, now: real)
    ensures Live(dict - {k}, now) == Live(dict, now) - {k}
    ensures k in dict && Expired(dict[k], now) ==> Live(dict - {k}, now) == Live(dict, now)
  {
  }

  lemma LiveOfStored(dict: Dict, k: Bytes, item: Item, now: real)
    ensures Live(dict[k := item], now) == Live(Live(dict, now)[k := item], now)
  {
  }

  ghost function LazyRun(s: State, es: seq<Event>): (answers: seq<Answer>)
    ensures |answers| == |es|
    decreases |es|
  {
    if es == [] then [] else var (t, a) := LazyStep(s, es[0]); [a] + LazyRun(t, es[1..])
  }

  ghost function EagerRun(s: State, es: seq<Event>): (answers: seq<Answer>)
    ensures |answers| == |es|
    decreases |es|
  {
    if es == [] then [] else var (t, a) := EagerStep(s, es[0]); [a] + EagerRun(t, es[1..])
  }

  ghost predicate AllProper(s: State, es: seq<Event>)
    decreases |es|
  {
    es != [] ==> Proper(s, es[0]) && AllProper(LazyStep(s, es[0]).0, es[1..])
  }

  /** Over every proper run, nobody can tell the lazy database from the eager one. */
  lemma {:induction false} RunsAgree(lazy: State, eager: State, es: seq<Event>)
    requires Refines(lazy, eager) && AllProper(lazy, es)
    ensures LazyRun(lazy, es) == EagerRun(eager, es)
    decreases |es|
  {
    if es != [] {
      StepRefines(lazy, eager, es[0]);
      RunsAgree(LazyStep(lazy, es[0]).0, EagerStep(eager, es[0]).0, es[1..]);
    }
  }

  /** Any setting of the clock keeps the refinement if and only if it brings no expired item back. */
  lemma TickRefinesIff(lazy: State, eager: State, now: real)
    requires Refines(lazy, eager)
    ensures Refines(LazyStep(lazy, Tick(now)).0, EagerStep(eager, Tick(now)).0) <==>
      forall k | k in lazy.dict && Expired(lazy.dict[k], lazy.now) :: Expired(lazy.dict[k], now)
  {
    var live, again := Live(lazy.dict, now), Live(Live(lazy.dict, lazy.now), now);
    if k :| k in lazy.dict && Expired(lazy.dict[k], lazy.now) && !Expired(lazy.dict[k], now) {
      assert k in live && k !in again;
    } else {
      assert live == again;
    }
  }

  /** If the clock could go back, an expired item that nobody looked up would come back with it. */
  lemma ClockGoingBackShows(k: Bytes, v: Bytes)
    ensures
      var s := State(map[k := Item(v, Some(5.0))], 0.0);
      var es := [Tick(10.0), Tick(3.0), Lookup(k)];
      LazyRun(s, es)[2] == Found(Item(v, Some(5.0))) && EagerRun(s, es)[2] == KeyError
  {
    var s := State(map[k := Item(v, Some(5.0))], 0.0);
    var rest, last := [Tick(3.0), Lookup(k)], [Lookup(k)];
    assert [Tick(10.0), Tick(3.0), Lookup(k)][1..] == rest && rest[1..] == last;
    var e1 := EagerStep(s, Tick(10.0)).0;
    assert e1.dict == map[];
    assert LazyRun(s.(now := 3.0), last)[0] == Found(Item(v, Some(5.0)));
    var e2 := EagerStep(e1, Tick(3.0)).0;
    assert e2.dict == map[];
    assert EagerRun(e2, last)[0] == KeyError;
  }
}
