/**
 Lazy expiry of hash fields: values and expirations in two maps, a purge that
 runs at the start of most operations, and a buffer of purged fields that is
 handed out for notification.
 */
module FieldExpiry {
  import opened Bytes
  import opened Options
  import opened Sorted

  /** The two maps of a hash. */
  datatype Fields = Fields(values: map<Bytes, Bytes>, expirations: map<Bytes, int>)

  predicate IsExpired(f: Fields, now: int, k: Bytes) {
    k in f.expirations && f.expirations[k] < now
  }

  /** The fields whose expiration has passed but which have not been purged. */
  function Stale(f: Fields, now: int): set<Bytes> {
    set k | k in f.expirations && f.expirations[k] < now
  }

  /** Every field with an expiration has a value. */
  predicate Consistent(f: Fields) {
    f.expirations.Keys <= f.values.Keys
  }

  /** The hash as an eagerly purged one would be. */
  function Live(f: Fields, now: int): Fields {
    Fields(f.values - Stale(f, now), f.expirations - Stale(f, now))
  }

  // ---------- the operations on values ----------

  function Without(f: Fields, gone: set<Bytes>): Fields {
    Fields(f.values - gone, f.expirations - gone)
  }

  /** set_key_expireat: 2 when the field is removed at once, 1 when the expiration is noted. */
  function ExpireAt(f: Fields, now: int, k: Bytes, when: int): (Fields, int) {
    if when <= now then (Fields(f.values - {k}, f.expirations - {k}), 2)
    else (f.(expirations := f.expirations[k := when]), 1)
  }

  function Assigned(f: Fields, k: Bytes, v: Bytes): Fields {
    Fields(f.values[k := v], f.expirations - {k})
  }

  function Deleted(f: Fields, k: Bytes): Fields {
    Fields(f.values - {k}, f.expirations - {k})
  }

  function Persisted(f: Fields, k: Bytes): Fields {
    f.(expirations := f.expirations - {k})
  }

  function Updated(f: Fields, items: map<Bytes, Bytes>, clear: bool): Fields {
    Fields(f.values + items, if clear then f.expirations - items.Keys else f.expirations)
  }

  function Popped(f: Fields, k: Bytes): Fields {
    f.(values := f.values - {k})
  }

  // ---------- what they do to each field ----------

  /** An eagerly purged hash has the fields whose expiration has not passed, with what they have here. */
  lemma LiveHas(f: Fields, now: int, k: Bytes)
    ensures
      var live, gone := Live(f, now), k in f.expirations && f.expirations[k] < now;
      && (k in live.values <==> k in f.values && !gone) && (k in live.values ==> live.values[k] == f.values[k])
      && (k in live.expirations <==> k in f.expirations && !gone)
      && (k in live.expirations ==> live.expirations[k] == f.expirations[k])
  {
  }

  /** The field has this value and this expiration, or none. */
  predicate Has(f: Fields, k: Bytes, value: Option<Bytes>, expiration: Option<int>) {
    && value == (if k in f.values then Some(f.values[k]) else None)
    && expiration == (if k in f.expirations then Some(f.expirations[k]) else None)
  }

  /**
   What the operations on one field do to it and to every other one: a time that
   has come removes the field, a later one is noted and the value stays; setting
   a field drops its expiration, deleting drops both, clearing the expiration
   leaves the value and popping leaves the expiration.
   */
  lemma FieldAfter(
      f: Fields, now: int, k: Bytes, when: int, v: Bytes, other: Bytes, value: Option<Bytes>, expiration: Option<int>)
    requires Has(f, other, value, expiration)
    ensures
      var (g, r) := ExpireAt(f, now, k, when);
      && r == (if when <= now then 2 else 1)
      && (if k != other then Has(g, other, value, expiration)
          else if when <= now then Has(g, k, None, None)
          else Has(g, k, value, Some(when)))
    ensures if k == other then Has(Assigned(f, k, v), k, Some(v), None) else Has(Assigned(f, k, v), other, value, expiration)
    ensures if k == other then Has(Deleted(f, k), k, None, None) else Has(Deleted(f, k), other, value, expiration)
    ensures if k == other then Has(Persisted(f, k), k, value, None) else Has(Persisted(f, k), other, value, expiration)
    ensures if k == other then Has(Popped(f, k), k, None, expiration) else Has(Popped(f, k), other, value, expiration)
  {
  }

  /** An update gives its fields new values, clears their expirations if asked to, and leaves every other field alone. */
  lemma FieldAfterUpdate(
      f: Fields, items: map<Bytes, Bytes>, clear: bool, k: Bytes, value: Option<Bytes>, expiration: Option<int>)
    requires Has(f, k, value, expiration)
    ensures
      var g := Updated(f, items, clear);
      if k in items then Has(g, k, Some(items[k]), if clear then None else expiration) else Has(g, k, value, expiration)
  {
  }

  // ---------- the purge ----------

  predicate IsDistinct(s: seq<Bytes>) {
    forall i, j | 0 <= i < j < |s| :: s[i] != s[j]
  }

  /** The fields with an expiration, in the order in which they got one. */
  ghost predicate IsOrder(order: seq<Bytes>, f: Fields) {
    IsDistinct(order) && forall k :: k in order <==> k in f.expirations
  }

  function Dropped(order: seq<Bytes>, gone: set<Bytes>): seq<Bytes> {
    Filter(order, (k: Bytes) => k !in gone)
  }

  /** The stale fields, in that order. */
  function StaleList(order: seq<Bytes>, f: Fields, now: int): seq<Bytes> {
    Filter(order, (k: Bytes) => IsExpired(f, now, k))
  }

  function SetOf(s: seq<Bytes>): set<Bytes> {
    set k | k in s
  }

  /** How many of the first fields have values. */
  function ValuedPrefix(s: seq<Bytes>, values: map<Bytes, Bytes>): (n: nat)
    ensures n <= |s| && forall i | 0 <= i < n :: s[i] in values
    ensures n < |s| ==> s[n] !in values
  {
    if s == [] || s[0] !in values then 0 else 1 + ValuedPrefix(s[1..], values)
  }

  /** The fields that a purge removes: the stale ones up to the first that has no value. */
  function PurgedFields(order: seq<Bytes>, f: Fields, now: int): seq<Bytes> {
    var stale := StaleList(order, f, now);
    stale[..ValuedPrefix(stale, f.values)]
  }

  /** A purge raises KeyError unless every stale field has a value. */
  predicate IsPurgeable(f: Fields, now: int) {
    Stale(f, now) <= f.values.Keys
  }

  function AfterPurge(order: seq<Bytes>, f: Fields, now: int): Fields {
    Without(f, SetOf(PurgedFields(order, f, now)))
  }

  lemma {:induction false} FilterIsDistinct(s: seq<Bytes>, p: Bytes -> bool)
    requires IsDistinct(s)
    ensures IsDistinct(Filter(s, p))
  {
    if s != [] {
      FilterIsDistinct(s[1..], p);
      var rest := Filter(s[1..], p);
      assert s[0] !in rest;
    }
  }

  lemma {:induction false} DropsJoin(order: seq<Bytes>, a: set<Bytes>, b: set<Bytes>)
    ensures Dropped(Dropped(order, a), b) == Dropped(order, a + b)
  {
    if order != [] {
      var k, rest := order[0], order[1..];
      assert order == [k] + rest;
      DropsJoin(rest, a, b);
      DropFirst(k, rest, a);
      DropFirst(k, rest, a + b);
      DropFirst(k, Dropped(rest, a), b);
      assert [] + Dropped(rest, a) == Dropped(rest, a);
    }
  }

  lemma DropFirst(k: Bytes, rest: seq<Bytes>, gone: set<Bytes>)
    ensures Dropped([k] + rest, gone) == (if k in gone then [] else [k]) + Dropped(rest, gone)
  {
    assert ([k] + rest)[1..] == rest;
  }

  lemma {:induction false} DropNothing(order: seq<Bytes>)
    ensures Dropped(order, {}) == order
  {
    if order != [] {
      DropNothing(order[1..]);
    }
  }

  lemma DroppedIsOrder(order: seq<Bytes>, f: Fields, g: Fields, gone: set<Bytes>)
    requires IsOrder(order, f) && g.expirations == f.expirations - gone
    ensures IsOrder(Dropped(order, gone), g)
  {
    FilterIsDistinct(order, (k: Bytes) => k !in gone);
  }

  /** A purge that succeeds makes the hash what an eager one would be. */
  lemma PurgeIsLiveIff(order: seq<Bytes>, f: Fields, now: int)
    requires IsOrder(order, f)
    ensures |PurgedFields(order, f, now)| == |StaleList(order, f, now)| <==> IsPurgeable(f, now)
    ensures IsPurgeable(f, now) ==>
      AfterPurge(order, f, now) == Live(f, now) && PurgedFields(order, f, now) == StaleList(order, f, now)
  {
    var stale := StaleList(order, f, now);
    var n := ValuedPrefix(stale, f.values);
    forall k ensures k in stale <==> k in Stale(f, now) {
    }
    if n < |stale| {
      assert stale[n] in stale && stale[n] !in f.values;
    } else {
      assert stale[..n] == stale && SetOf(stale) == Stale(f, now);
      assert forall k | k in Stale(f, now) :: k in stale;
    }
  }

  lemma {:induction false} DistinctMultiset(s: seq<Bytes>)
    requires IsDistinct(s)
    ensures multiset(s) == multiset(SetOf(s))
  {
    if s != [] {
      var init, last := s[..|s| - 1], s[|s| - 1];
      DistinctMultiset(init);
      assert s == init + [last];
      assert SetOf(s) == SetOf(init) + {last} && last !in SetOf(init);
    }
  }

  /** Each stale field is listed once. */
  lemma StaleListedOnce(order: seq<Bytes>, f: Fields, now: int)
    requires IsOrder(order, f)
    ensures IsDistinct(StaleList(order, f, now))
    ensures multiset(StaleList(order, f, now)) == multiset(Stale(f, now))
  {
    FilterIsDistinct(order, (k: Bytes) => IsExpired(f, now, k));
    DistinctMultiset(StaleList(order, f, now));
    assert SetOf(StaleList(order, f, now)) == Stale(f, now);
  }

  lemma OneMorePurged(f: Fields, order: seq<Bytes>, stale: seq<Bytes>, i: nat)
    requires i < |stale|
    ensures SetOf(stale[..i + 1]) == SetOf(stale[..i]) + {stale[i]}
    ensures Without(Without(f, SetOf(stale[..i])), {stale[i]}) == Without(f, SetOf(stale[..i + 1]))
    ensures Dropped(Dropped(order, SetOf(stale[..i])), {stale[i]}) == Dropped(order, SetOf(stale[..i + 1]))
  {
    assert stale[..i + 1] == stale[..i] + [stale[i]];
    DropsJoin(order, SetOf(stale[..i]), {stale[i]});
  }

  // ---------- the hash object ----------

  class Hash {
    var values: map<Bytes, Bytes>
    var expirations: map<Bytes, int>
    var order: seq<Bytes>
    var expiredFields: seq<Bytes>

    ghost predicate Valid()
      reads this
    {
      IsOrder(order, Abs())
    }

    constructor ()
      ensures Valid() && Abs() == Fields(map[], map[]) && expiredFields == []
    {
      values, expirations, order, expiredFields := map[], map[], [], [];
    }

    function Abs(): Fields
      reads this
    {
      Fields(values, expirations)
    }

    /**
     The purge. The stale fields go in order, up to the first that has no
     value; if there is one, it stops with a KeyError (answer false), and those
     gone never reach the buffer, otherwise the buffer receives each once.
     */
    method ExpireKeys(now: int) returns (ok: bool)
      requires Valid()
      modifies this
      ensures Valid() && (ok <==> IsPurgeable(old(Abs()), now))
      ensures Abs() == AfterPurge(old(order), old(Abs()), now)
      ensures ok ==> Abs() == Live(old(Abs()), now)
      ensures order == Dropped(old(order), SetOf(PurgedFields(old(order), old(Abs()), now)))
      ensures expiredFields == old(expiredFields) + if ok then StaleList(old(order), old(Abs()), now) else []
    {
      var expired := StaleList(order, Abs(), now);
      PurgeIsLiveIff(order, Abs(), now);
      StaleListedOnce(order, Abs(), now);
      ok := PurgeEach(expired);
      if ok {
        expiredFields := expiredFields + expired;
      }
    }

    /** The loop of the purge, up to the first field that has no value. */
    method PurgeEach(expired: seq<Bytes>) returns (ok: bool)
      requires Valid() && IsDistinct(expired)
      modifies this`values, this`expirations, this`order
      ensures Valid()
      ensures
        var n := ValuedPrefix(expired, old(values));
        && (ok <==> n == |expired|)
        && Abs() == Without(old(Abs()), SetOf(expired[..n]))
        && order == Dropped(old(order), SetOf(expired[..n]))
    {
      DropNothing(order);
      assert expired[..0] == [] && SetOf([]) == {};
      for i := 0 to |expired|
        invariant Valid() && forall j | 0 <= j < i :: expired[j] in old(values)
        invariant Abs() == Without(old(Abs()), SetOf(expired[..i]))
        invariant order == Dropped(old(order), SetOf(expired[..i]))
      {
        assert expired[i] !in SetOf(expired[..i]);
        if expired[i] !in values {
          assert i == ValuedPrefix(expired, old(values));
          return false;
        }
        OneMorePurged(old(Abs()), old(order), expired, i);
        PurgeField(expired[i]);
      }
      return true;
    }

    method PurgeField(k: Bytes)
      requires Valid()
      modifies this`values, this`expirations, this`order
      ensures Valid() && Abs() == Without(old(Abs()), {k}) && order == Dropped(old(order), {k})
    {
      DropExpirations({k});
      values := values - {k};
    }

    method DropExpirations(gone: set<Bytes>)
      requires Valid()
      modifies this`expirations, this`order
      ensures Valid() && expirations == old(expirations) - gone && order == Dropped(old(order), gone)
    {
      DroppedIsOrder(order, Abs(), Abs().(expirations := expirations - gone), gone);
      expirations, order := expirations - gone, Dropped(order, gone);
    }

    method TakeExpiredFields() returns (r: seq<Bytes>)
      modifies this`expiredFields
      ensures r == old(expiredFields) && expiredFields == []
    {
      r, expiredFields := expiredFields, [];
    }

    method SetKeyExpireAt(now: int, k: Bytes, when: int) returns (r: int)
      requires Valid()
      modifies this`values, this`expirations, this`order
      ensures Valid() && (Abs(), r) == ExpireAt(old(Abs()), now, k, when)
      ensures order ==
        if when <= now then Dropped(old(order), {k}) else if k in old(expirations) then old(order) else old(order) + [k]
    {
      if when <= now {
        PurgeField(k);
        return 2;
      }
      if k !in expirations {
        order := order + [k];
      }
      expirations := expirations[k := when];
      return 1;
    }

    method ClearKeyExpireAt(k: Bytes) returns (cleared: bool)
      requires Valid()
      modifies this`expirations, this`order
      ensures Valid() && cleared == (k in old(expirations)) && Abs() == Persisted(old(Abs()), k)
      ensures order == Dropped(old(order), {k})
    {
      cleared := k in expirations;
      DropExpirations({k});
    }

    method SetItem(k: Bytes, v: Bytes)
      requires Valid()
      modifies this`values, this`expirations, this`order
      ensures Valid() && Abs() == Assigned(old(Abs()), k, v) && order == Dropped(old(order), {k})
    {
      DropExpirations({k});
      values := values[k := v];
    }

    method DelItem(k: Bytes)
      requires Valid()
      modifies this`values, this`expirations, this`order
      ensures Valid() && Abs() == Deleted(old(Abs()), k) && order == Dropped(old(order), {k})
    {
      PurgeField(k);
    }

    /** Reading a field, by index or by get. */
    method Get(now: int, k: Bytes) returns (ok: bool, r: Option<Bytes>)
      requires Valid()
      modifies this
      ensures Valid() && (ok <==> IsPurgeable(old(Abs()), now)) && Abs() == AfterPurge(old(order), old(Abs()), now)
      ensures ok ==>
        var live := Live(old(Abs()), now).values;
        Abs() == Live(old(Abs()), now) && r == if k in live then Some(live[k]) else None
    {
      ok := ExpireKeys(now);
      r := if k in values then Some(values[k]) else None;
    }

    method Len(now: int) returns (ok: bool, n: nat)
      requires Valid()
      modifies this
      ensures Valid() && (ok <==> IsPurgeable(old(Abs()), now)) && Abs() == AfterPurge(old(order), old(Abs()), now)
      ensures ok ==> Abs() == Live(old(Abs()), now) && n == |Live(old(Abs()), now).values|
    {
      ok := ExpireKeys(now);
      n := |values|;
    }

    method GetAll(now: int) returns (ok: bool, r: map<Bytes, Bytes>)
      requires Valid()
      modifies this
      ensures Valid() && (ok <==> IsPurgeable(old(Abs()), now)) && Abs() == AfterPurge(old(order), old(Abs()), now)
      ensures ok ==> Abs() == Live(old(Abs()), now) && r == Live(old(Abs()), now).values
    {
      ok := ExpireKeys(now);
      r := values;
    }

    method Update(now: int, items: map<Bytes, Bytes>, clearExpiration: bool) returns (ok: bool)
      requires Valid()
      modifies this
      ensures Valid() && (ok <==> IsPurgeable(old(Abs()), now))
      ensures Abs() ==
        if ok then Updated(Live(old(Abs()), now), items, clearExpiration) else AfterPurge(old(order), old(Abs()), now)
    {
      ok := ExpireKeys(now);
      if ok {
        if clearExpiration {
          DropExpirations(items.Keys);
        }
        values := values + items;
      }
    }

    method Pop(now: int, k: Bytes) returns (ok: bool, r: Option<Bytes>)
      requires Valid()
      modifies this
      ensures Valid() && (ok <==> IsPurgeable(old(Abs()), now))
      ensures Abs() == if ok then Popped(Live(old(Abs()), now), k) else AfterPurge(old(order), old(Abs()), now)
      ensures ok ==> var live := Live(old(Abs()), now).values; r == if k in live then Some(live[k]) else None
    {
      ok := ExpireKeys(now);
      r := if k in values then Some(values[k]) else None;
      if ok {
        values := values - {k};
      }
    }
  }

  // ---------- which operations keep the maps consistent ----------

  lemma MostOperationsKeepConsistency(f: Fields, now: int, k: Bytes, v: Bytes, items: map<Bytes, Bytes>, clear: bool)
    requires Consistent(f)
    ensures Consistent(Live(f, now)) && Consistent(Assigned(f, k, v)) && Consistent(Deleted(f, k))
    ensures Consistent(Persisted(f, k)) && Consistent(Updated(f, items, clear))
    ensures Stale(f, now) <= f.values.Keys
  {
  }

  /** Noting an expiration keeps the maps consistent if and only if the field is there, or is removed at once. */
  lemma ExpireAtKeepsConsistencyIff(f: Fields, now: int, k: Bytes, when: int)
    requires Consistent(f)
    ensures Consistent(ExpireAt(f, now, k, when).0) <==> when <= now || k in f.values
  {
  }

  /** Popping keeps them consistent if and only if the field has no expiration. */
  lemma PopKeepsConsistencyIff(f: Fields, k: Bytes)
    requires Consistent(f)
    ensures Consistent(Popped(f, k)) <==> k !in f.expirations
  {
  }

  /** After a pop that does not, the first purge later than the expiration is the one that fails. */
  lemma PopMakesPurgeFail(f: Fields, k: Bytes, now: int)
    requires Consistent(f) && k in f.expirations
    ensures Stale(Popped(f, k), now) <= Popped(f, k).values.Keys <==> now <= f.expirations[k]
  {
  }

  /**
   A field is set, given a later expiration, and popped, while another field
   stays: from the expiration on every purge fails.
   */
  lemma PopLeadsToFailingPurge(k: Bytes, v: Bytes, other: Bytes, w: Bytes, now: int, when: int, later: int)
    requires k != other && now < when < later
    ensures
      var f := ExpireAt(Assigned(Assigned(Fields(map[], map[]), other, w), k, v), now, k, when).0;
      var g := Popped(Live(f, now), k);
      Consistent(f) && g.values == map[other := w] && !(Stale(g, later) <= g.values.Keys)
  {
    var f := ExpireAt(Assigned(Assigned(Fields(map[], map[]), other, w), k, v), now, k, when).0;
    assert Live(f, now) == f;
    PopMakesPurgeFail(f, k, later);
    assert Popped(f, k).values == map[other := w];
  }

  /** A new expiration acts as on the eager hash if and only if it is not given to a stale field, which it would revive. */
  lemma ExpireAtAgreesIff(f: Fields, now: int, k: Bytes, when: int)
    requires Consistent(f)
    ensures Live(ExpireAt(f, now, k, when).0, now) == ExpireAt(Live(f, now), now, k, when).0
            <==> when <= now || !IsExpired(f, now, k)
  {
    var lazy, eager := Live(ExpireAt(f, now, k, when).0, now), ExpireAt(Live(f, now), now, k, when).0;
    if when > now && IsExpired(f, now, k) {
      assert k in lazy.values && k !in eager.values;
    } else {
      assert lazy.values == eager.values && lazy.expirations == eager.expirations;
    }
  }

  /** So does clearing one. */
  lemma PersistAgreesIff(f: Fields, now: int, k: Bytes)
    requires Consistent(f)
    ensures Live(Persisted(f, k), now) == Persisted(Live(f, now), k) <==> !IsExpired(f, now, k)
  {
    var lazy, eager := Live(Persisted(f, k), now), Persisted(Live(f, now), k);
    if IsExpired(f, now, k) {
      assert k in lazy.values && k !in eager.values;
    } else {
      assert lazy.values == eager.values && lazy.expirations == eager.expirations;
    }
  }

  // ---------- runs: the lazy hash against an eager one ----------

  datatype Event =
    | Tick(now: int)
    | Read
    | Take
    | Assign(k: Bytes, v: Bytes)
    | Delete(k: Bytes)
    | Expire(k: Bytes, when: int)
    | Persist(k: Bytes)
    | UpdateAll(items: map<Bytes, Bytes>, clear: bool)
    | PopOne(k: Bytes)

  /**
   A lazy hash with its buffer, an eager hash beside it, and three tallies of
   fields: those that expired in the eager hash, those handed out by the lazy
   one, and those that were overwritten or deleted while they were stale.
   */
  datatype System = System(
    now: int, lazy: Fields, buffer: multiset<Bytes>, eager: Fields,
    expired: multiset<Bytes>, handedOut: multiset<Bytes>, lost: multiset<Bytes>)

  function Purged(s: System): System {
    s.(lazy := Live(s.lazy, s.now), buffer := s.buffer + multiset(Stale(s.lazy, s.now)))
  }

  function LostTo(s: System, k: Bytes): multiset<Bytes> {
    s.lost + if IsExpired(s.lazy, s.now, k) then multiset{k} else multiset{}
  }

  /** Every reading operation purges; the others act on the maps as they are. */
  function Step(s: System, e: Event): System {
    match e
    case Tick(now) =>
      s.(now := now, eager := Live(s.eager, now), expired := s.expired + multiset(Stale(s.eager, now)))
    case Read => Purged(s)
    case Take => s.(handedOut := s.handedOut + s.buffer, buffer := multiset{})
    case Assign(k, v) => s.(lazy := Assigned(s.lazy, k, v), eager := Assigned(s.eager, k, v), lost := LostTo(s, k))
    case Delete(k) => s.(lazy := Deleted(s.lazy, k), eager := Deleted(s.eager, k), lost := LostTo(s, k))
    case Expire(k, when) =>
      s.(lazy := ExpireAt(s.lazy, s.now, k, when).0, eager := ExpireAt(s.eager, s.now, k, when).0)
    case Persist(k) => s.(lazy := Persisted(s.lazy, k), eager := Persisted(s.eager, k))
    case UpdateAll(items, clear) =>
      var t := Purged(s);
      t.(lazy := Updated(t.lazy, items, clear), eager := Updated(s.eager, items, clear))
    case PopOne(k) =>
      var t := Purged(s);
      t.(lazy := Popped(t.lazy, k), eager := Popped(s.eager, k))
  }

  /**
   Time does not run backwards, expirations are set and cleared only on fields
   that are there and not stale, and fields popped have none.
   */
  predicate Proper(s: System, e: Event) {
    match e
    case Tick(now) => now >= s.now
    case Expire(k, _) => k in s.lazy.values && !IsExpired(s.lazy, s.now, k)
    case Persist(k) => !IsExpired(s.lazy, s.now, k)
    case PopOne(k) => k !in s.eager.expirations
    case _ => true
  }

  ghost predicate Inv(s: System) {
    && Consistent(s.lazy)
    && s.eager == Live(s.lazy, s.now)
    && s.expired == s.handedOut + s.buffer + multiset(Stale(s.lazy, s.now)) + s.lost
  }

  lemma TickKeepsInv(s: System, now: int)
    requires Inv(s) && now >= s.now
    ensures Inv(Step(s, Tick(now)))
  {
  }

  lemma ReadKeepsInv(s: System)
    requires Inv(s)
    ensures Inv(Purged(s)) && Stale(Purged(s).lazy, s.now) == {} && Purged(s).lazy == s.eager
  {
  }

  lemma AssignKeepsInv(s: System, k: Bytes, v: Bytes)
    requires Inv(s)
    ensures Inv(Step(s, Assign(k, v)))
  {
    var stale := Stale(s.lazy, s.now);
    Rebalanced(s.expired, s.handedOut + s.buffer, stale, s.lost, k);
    assert Stale(Assigned(s.lazy, k, v), s.now) == stale - {k};
    assert Live(Assigned(s.lazy, k, v), s.now) == Assigned(s.eager, k, v);
  }

  lemma DeleteKeepsInv(s: System, k: Bytes)
    requires Inv(s)
    ensures Inv(Step(s, Delete(k)))
  {
    var stale := Stale(s.lazy, s.now);
    Rebalanced(s.expired, s.handedOut + s.buffer, stale, s.lost, k);
    assert Stale(Deleted(s.lazy, k), s.now) == stale - {k};
    assert Live(Deleted(s.lazy, k), s.now) == Deleted(s.eager, k);
  }

  /** A field that is overwritten or deleted while stale counts as lost instead. */
  lemma Rebalanced(expired: multiset<Bytes>, given: multiset<Bytes>, stale: set<Bytes>, lost: multiset<Bytes>, k: Bytes)
    requires expired == given + multiset(stale) + lost
    ensures expired == given + multiset(stale - {k}) + (lost + if k in stale then multiset{k} else multiset{})
  {
    assert multiset(stale) == multiset(stale - {k}) + if k in stale then multiset{k} else multiset{};
  }

  lemma ExpireKeepsInv(s: System, k: Bytes, when: int)
    requires Inv(s) && Proper(s, Expire(k, when))
    ensures Inv(Step(s, Expire(k, when)))
  {
  }

  lemma PersistKeepsInv(s: System, k: Bytes)
    requires Inv(s) && Proper(s, Persist(k))
    ensures Inv(Step(s, Persist(k)))
  {
  }

  lemma UpdateKeepsInv(s: System, items: map<Bytes, Bytes>, clear: bool)
    requires Inv(s)
    ensures Inv(Step(s, UpdateAll(items, clear)))
  {
  }

  lemma PopKeepsInv(s: System, k: Bytes)
    requires Inv(s) && k !in s.eager.expirations
    ensures Inv(Step(s, PopOne(k)))
  {
    ReadKeepsInv(s);
    var t := Step(s, PopOne(k));
    assert Stale(t.lazy, t.now) == {} && Live(t.lazy, t.now) == t.lazy;
  }

  /** Every proper step keeps the lazy hash, once purged, equal to the eager one, and accounts for every expired field. */
  lemma StepKeepsInv(s: System, e: Event)
    requires Inv(s) && Proper(s, e)
    ensures Inv(Step(s, e))
  {
    match e
    case Tick(now) => TickKeepsInv(s, now);
    case Read => ReadKeepsInv(s);
    case Take =>
    case Assign(k, v) => AssignKeepsInv(s, k, v);
    case Delete(k) => DeleteKeepsInv(s, k);
    case Expire(k, when) => ExpireKeepsInv(s, k, when);
    case Persist(k) => PersistKeepsInv(s, k);
    case UpdateAll(items, clear) => UpdateKeepsInv(s, items, clear);
    case PopOne(k) => PopKeepsInv(s, k);
  }

  ghost predicate AllProper(s: System, es: seq<Event>)
    decreases |es|
  {
    es != [] ==> Proper(s, es[0]) && AllProper(Step(s, es[0]), es[1..])
  }

  function Run(s: System, es: seq<Event>): System
    decreases |es|
  {
    if es == [] then s else Run(Step(s, es[0]), es[1..])
  }

  const START := System(0, Fields(map[], map[]), multiset{}, Fields(map[], map[]), multiset{}, multiset{}, multiset{})

  lemma {:induction false} RunKeepsInv(s: System, es: seq<Event>)
    requires Inv(s) && AllProper(s, es)
    ensures Inv(Run(s, es))
    decreases |es|
  {
    if es != [] {
      StepKeepsInv(s, es[0]);
      RunKeepsInv(Step(s, es[0]), es[1..]);
    }
  }

  /**
   After any proper run, reading sees the eager hash, and once the purged
   fields are taken, every field that expired was handed out once for each time
   it expired, except those overwritten or deleted while they were stale.
   */
  lemma LazyHashIsFaithful(es: seq<Event>)
    requires AllProper(START, es)
    ensures var s := Run(START, es); Purged(s).lazy == s.eager
    ensures var s := Step(Purged(Run(START, es)), Take); s.expired == s.handedOut + s.lost
  {
    assert Inv(START) by {
      assert Stale(START.lazy, 0) == {};
    }
    RunKeepsInv(START, es);
    ReadKeepsInv(Run(START, es));
  }
}
