/**
 What WATCH is for: a transaction that runs finds the watched keys as they
 were when they were watched. It holds as far as changes are reported.
 */
module Locking {
  import opened Bytes
  import opened Commands
  import opened Options
  import opened Transactions

  /** The server between two requests; silent holds the keys the request before it may have changed without reporting them. */
  datatype Moment = Moment(contents: Keyspace, log: seq<Event>, silent: set<(Bytes, nat)>)

  /** Between any two moments the history tells which keys changed, apart from the silent ones. */
  ghost predicate IsRun(ms: seq<Moment>) {
    forall i | 0 < i < |ms| :: Noticed(ms[i - 1].contents, ms[i].contents, ms[i - 1].log, ms[i].log, ms[i].silent)
  }

  // ---------- watched keys keep their values ----------

  lemma {:induction false} StaysWatched(log: seq<Event>, later: seq<Event>, s: Socket, key: Bytes, db: nat)
    requires log <= later && (key, db) in Replay(log, s).watched && Cleared(s) !in later[|log|..]
    ensures (key, db) in Replay(later, s).watched
    ensures Replay(log, s).dirty || Touched(key, db) in later[|log|..] ==> Replay(later, s).dirty
  {
    if log == later {
      assert later[|log|..] == [];
    } else {
      var n := |later| - 1;
      var init, e := later[..n], later[n];
      assert later[|log|..] == init[|log|..] + [e];
      StaysWatched(log, init, s, key, db);
    }
  }

  lemma {:induction false} LogGrows(ms: seq<Moment>)
    requires IsRun(ms) && ms != []
    ensures ms[0].log <= ms[|ms| - 1].log
  {
    if |ms| > 1 {
      LogGrows(ms[..|ms| - 1]);
    }
  }

  /** The history since the first moment does not clear the session's watches. */
  ghost predicate KeepsWatches(ms: seq<Moment>, s: Socket)
    requires ms != []
  {
    var log := ms[|ms| - 1].log;
    forall i | |ms[0].log| <= i < |log| :: log[i] != Cleared(s)
  }

  lemma InitIsRun(ms: seq<Moment>, s: Socket)
    requires IsRun(ms) && |ms| > 1 && KeepsWatches(ms, s)
    ensures
      var init, mid, last := ms[..|ms| - 1], ms[|ms| - 2], ms[|ms| - 1];
      && IsRun(init) && KeepsWatches(init, s) && ms[0].log <= mid.log && Cleared(s) !in mid.log[|ms[0].log|..]
      && Noticed(mid.contents, last.contents, mid.log, last.log, last.silent)
      && forall i | |mid.log| <= i < |last.log| :: last.log[i] != Cleared(s)
  {
    LogGrows(ms[..|ms| - 1]);
    assert ms[|ms| - 1].log[..|ms[|ms| - 2].log|] == ms[|ms| - 2].log;
  }

  lemma StepKeepsValue(mid: Moment, last: Moment, s: Socket, key: Bytes, db: nat)
    requires Noticed(mid.contents, last.contents, mid.log, last.log, last.silent) && (key, db) !in last.silent
    requires (key, db) in Replay(mid.log, s).watched && !Replay(last.log, s).dirty
    requires forall i | |mid.log| <= i < |last.log| :: last.log[i] != Cleared(s)
    ensures Lookup(last.contents, key, db) == Lookup(mid.contents, key, db) && !Replay(mid.log, s).dirty
  {
    StaysWatched(mid.log, last.log, s, key, db);
  }

  lemma {:induction false} UndirtiedKeyIsUnchanged(ms: seq<Moment>, s: Socket, key: Bytes, db: nat)
    requires IsRun(ms) && ms != [] && KeepsWatches(ms, s)
    requires (key, db) in Replay(ms[0].log, s).watched
    requires forall i | 0 < i < |ms| :: (key, db) !in ms[i].silent
    requires !Replay(ms[|ms| - 1].log, s).dirty
    ensures Lookup(ms[|ms| - 1].contents, key, db) == Lookup(ms[0].contents, key, db)
  {
    if |ms| > 1 {
      var init, mid := ms[..|ms| - 1], ms[|ms| - 2];
      InitIsRun(ms, s);
      StaysWatched(ms[0].log, mid.log, s, key, db);
      StepKeepsValue(mid, ms[|ms| - 1], s, key, db);
      UndirtiedKeyIsUnchanged(init, s, key, db);
    }
  }

  /**
   A key is watched at the first moment, and at the last one EXEC would run the
   queue, as the history shows no touch since a watch: the key has the value it
   had, unless some request changed it without reporting it.
   */
  lemma ExecFindsWatchedValue(ms: seq<Moment>, s: Socket, key: Bytes, db: nat)
    requires IsRun(ms) && ms != [] && KeepsWatches(ms, s)
    requires (key, db) in Replay(ms[0].log, s).watched
    requires forall i | 0 < i < |ms| :: (key, db) !in ms[i].silent
    requires !TouchedSinceWatch(ms[|ms| - 1].log, s)
    ensures Lookup(ms[|ms| - 1].contents, key, db) == Lookup(ms[0].contents, key, db)
  {
    DirtyIffTouchedSinceWatch(ms[|ms| - 1].log, s);
    UndirtiedKeyIsUnchanged(ms, s, key, db);
  }
}
