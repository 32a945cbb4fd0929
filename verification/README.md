# fakeredis in Dafny

A model of the state machines and algorithms of fakeredis, an in-memory Redis
server, with proofs of what they keep and compute. `dafny verify
dfyconfig.toml` checks the whole project.

| file | component |
|---|---|
| `Blocking.dfy` | lists, pushes and pops, BLPOP, BRPOP, BRPOPLPUSH, time-outs, CLIENT UNBLOCK |
| `Transactions.dfy`, `Locking.dfy` | sessions, WATCH, MULTI, EXEC, DISCARD, write-back and its notifications; the watched values |
| `Commands.dfy`, `Reporting.dfy` | keys, shared objects and what commands do to them; which commands report all they change |
| `Resp.dfy` | the resumable request parser with its pause switch |
| `Scan.dfy` | the bit-reversed cursor of the SCAN family |
| `Bitfield.dfy` | GETBIT, SETBIT, and the typed reads and writes of BITFIELD |
| `Lcs.dfy` | the tables and traceback of LCS |
| `Glob.dfy` | the compiler from glob patterns to regular expressions |
| `Geohash.dfy` | the geohash encoder and decoder, over the reals |
| `Streams.dfy`, `Delivery.dfy` | the stream index, what a group is given |
| `Groups.dfy`, `GroupRuns.dfy` | the pending entries and their counters, and runs of all that happens to them |
| `Deletions.dfy` | XDELEX and XACKDEL |
| `ZSet.dfy` | the sorted set's map and list |
| `KeyExpiry.dfy`, `FieldExpiry.dfy` | lazy expiry of keys and of hash fields |
| `Ring.dfy` | ARRING and the array under it |
| `Sorted.dfy`, `Slices.dfy`, `Bytes.dfy`, `Options.dfy`, `Arithmetic.dfy` | what these share |

Code that changes state step by step is a class or a loop, proved equal to
functions on values; the properties are lemmas about those functions and about
runs of them. A step is what happens under the server's lock, and a run is any
sequence of steps, so a statement about all runs is one about all
interleavings. Time, the outcome of an ordinary command, and whether a command
blocks are parameters.

What such a function computes is said a second time in terms of its arguments
alone, by lemmas (mostly called `...Result`, `...Iff` or `...After`) that name
neither it nor its parts: which element a pop answers with, which id an entry
gets, what each overflow policy stores, which reply of EXEC belongs to which
command.

A database maps keys to objects, and two keys may hold one object. Ordinary
commands in `Transactions.dfy` are any function from the command, the databases
and the selected one to the objects changed in place, what is stored directly,
the items modified, in any database, and a reply. The server keeps a history of
what happened; the sessions' flags and tables are proved to say what the history
says, and EXEC is specified by the history. `Locking.dfy` proves from that what
WATCH promises about values, and `Reporting.dfy` which commands keep to it.

## Where the code does not keep a property

In each case the code is modelled as it is, a lemma states exactly when the
property holds, and where there is state a run reaches the failure from the
beginning.

- `[]` in a glob should match nothing, but its compiled form accepts a newline
  at the end of the string (`Glob.CompilationPreservesMeaning`,
  `Glob.EmptyGroupAcceptsNewline`). The comment at `fakeredis/_helpers.py:129`
  says otherwise.
- A request with a negative field length is accepted, and what it means depends
  on how the bytes are cut. Data may be cut anywhere if and only if no length in
  it is negative (`Resp.ChunksCanBeJoinedIff`; two cuts of the same bytes in
  `Resp.NegativeLengthDependsOnChunks`).
- The comment at `fakeredis/_basefakesocket.py:527` promises every key that
  lasts through a SCAN. An insertion that makes cursors wider doubles the index
  a cursor stands for (`Scan.InsertionKeepsReachIff`, `Scan.InsertionLosesKeys`),
  and the deletion of a key the cursor has passed moves the others out of reach
  unless it makes cursors narrower (`Scan.DeletionKeepsReachIff`,
  `Scan.DeletionLosesKey`). Where every insertion and deletion meets these
  conditions the promise is kept (`Scan.FinishedIterationIsComplete`).
- A transaction can run although a key its session watches has changed, when the
  command that changed it did not report it. For each such command modelled, a
  lemma says exactly when it reports all it changes: MOVE does not report the
  key it brings to the other database (`Reporting.MoveReportsIff`), SWAPDB
  reports nothing (`Reporting.SwapTellsAllIff`), XDEL, LMPOP and BLMPOP, and
  HEXPIRE and HGETEX with a time that has passed change the value in place and
  never mark it (`Reporting.XdelReportsIff`, `Reporting.LmpopReportsIff`,
  `Reporting.HexpireReportsIff`), XADD and ARMSET do not when an argument that
  is looked at after the change is wrong (`Reporting.XaddReportsIff`,
  `Reporting.ArmsetReportsIff`), and any change in place goes unreported for the
  other key that holds the object, as one does after COPY
  (`Reporting.CopySharesObject`, `Reporting.RpushReportsIff`). Runs:
  `Reporting.MoveEscapesWatch`, `Reporting.SwapEscapesWatch`,
  `Reporting.XdelEscapesWatch`, `Reporting.LmpopEscapesWatch`,
  `Reporting.HexpireEscapesWatch`, `Reporting.XaddEscapesWatch`,
  `Reporting.ArmsetEscapesWatch`, `Reporting.CopyEscapesWatch`. Commands of the
  other types that never mark what they change are instances of
  `Reporting.UnreportedIff` and `Reporting.InPlaceEscapesWatch`.
- MOVE does not wake the clients of the database it moves a list to either
  (`Blocking.MovedInKeepsInvIff`, `Blocking.MoveLosesWakeup`).
- XADD accepts the last id over again (`Streams.AddKeepsIndexIff`,
  `Streams.RepeatedIdIsAccepted`), and, as it looks at the last id stored only,
  one below an id already given to a group and then deleted. The group will be
  given an added id if and only if it is above the last one given
  (`Delivery.AddedIdIsGivenIff`, `Delivery.LateIdIsMissed`).
- Pending counters go wrong with NOACK reads, with XCLAIM and XAUTOCLAIM, with
  the deletion of a consumer, with a `>` read of an entry somebody owns, which is
  possible after SETID, and after XNACK with FORCE of an entry not yet delivered
  once a read with CLAIM has taken it, and with a read of an id that was added
  twice. Over any run the counters are
  right throughout if and only if no event is of these kinds when its turn comes
  (`GroupRuns.StepKeepsPendingIff`, `GroupRuns.CountersRightThroughoutIff`; the
  conditions one by one in `Groups.NoAckReadKeepsPendingIff`,
  `Groups.ClaimsKeepPendingIff`, `Groups.ClaimKeepsPendingIff`,
  `Groups.DelConsumerKeepsPendingIff`, `Groups.ReadNewKeepsPendingIff`; runs in
  `GroupRuns.NewGroupGoesWrong`, `GroupRuns.OwnedEntryGoesWrong`,
  `GroupRuns.RereadGoesWrong`, `GroupRuns.ForcedEntryGoesWrong`,
  `GroupRuns.RepeatedIdGoesWrong`). A claim by the
  owner itself is among them when the entry has been deleted from the stream.
- Acknowledging an entry raises KeyError when its owner is no consumer: after a
  release, as long as nothing has registered the empty name, and after the owner
  was deleted, as long as it is not registered again (`GroupRuns.AckRaisesIff`,
  `GroupRuns.ReleasedAckRaises`, `GroupRuns.DeletedOwnerAckRaises`).
- XACKDEL with `$` deletes the last entry without acknowledging it, as the
  acknowledgement skips what is no id: in KEEPREF mode the entry is no longer
  pending if and only if its id was written out (`Deletions.AckDeletedIsRight`,
  `Deletions.DollarIsNotAcknowledged`).
- `Hash.pop` leaves the expiration behind, and a later purge then fails
  (`FieldExpiry.PopKeepsConsistencyIff`, `FieldExpiry.PopMakesPurgeFail`,
  `FieldExpiry.PopLeadsToFailingPurge`).
- A clock that goes back revives keys that expired unnoticed
  (`KeyExpiry.TickRefinesIff`, `KeyExpiry.ClockGoingBackShows`).
- `lastitems(0)` returns everything and `lastitems(-1)` everything but the
  oldest; the count means what it says if and only if it is at least 1 or at
  most minus the number of items (`Ring.LastItemsCountIff`).

## Model

| member | source | states |
|---|---|---|
| `Blocking.NoLostWakeup` | fakeredis/_basefakesocket.py:458-489 | Over every run of pushes, pops, moves, blocking commands, retries, time-outs and CLIENT UNBLOCK: a client asleep with no wake-up pending has only missing or non-list source keys, a pending unblock reason always comes with a wake-up, and no empty list is stored |
| `Blocking.StepKeepsInv` | fakeredis/_helpers.py:159-172 | Each single step keeps that invariant |
| `Blocking.RetryMakesProgress` | fakeredis/_basefakesocket.py:478-486 | A retry of a notified client ends its sleep, or leaves the sleepers as they are and takes away just its own pending wake-up |
| `Blocking.RetriesSettle` | fakeredis/_basefakesocket.py:458-489 | From every reachable state finitely many retries reach a state with no wake-up pending in which every client still asleep has nothing to pop |
| `Blocking.RunConserves` | fakeredis/commands_mixins/list_mixin.py:49-97 | For every element, over every run: copies stored at the start or brought in are the copies stored at the end, delivered, or thrown away; so nothing pushed is lost or delivered twice |
| `Blocking.StepConserves` | fakeredis/commands_mixins/list_mixin.py:14-23 | The same balance for each single step |
| `Blocking.CountIsMultiplicity` | fakeredis/commands_mixins/list_mixin.py:14-23 | What the ledger counts is the multiplicity of the element |
| `Blocking.RunInOrder` | fakeredis/commands_mixins/list_mixin.py:264-269 | A list pushed at one end and popped at the other, either way round, by blocked clients, LMOVE, RPOPLPUSH, BRPOPLPUSH or others, delivers in the order of the pushes: seen from the end of the pops, initial list and pushes equal pops and final list |
| `Blocking.StepInOrder` | fakeredis/commands_mixins/list_mixin.py:49-75 | What a step pops comes off one end of the queue and what it pushes goes on at the other, for both directions and every operation |
| `Blocking.PushResult` | fakeredis/commands_mixins/list_mixin.py:193-213 | LPUSH puts the values in front of the list, the last of them first, RPUSH behind it in order, and answers with the new length; another type is an error, and the X forms leave a missing key alone |
| `Blocking.TakeResult` | fakeredis/commands_mixins/list_mixin.py:14-43 | LPOP answers with the first elements in order and RPOP with the last ones, the last first; what is left is the rest; more than one argument, a negative count or another type is an error |
| `Blocking.MoveResult` | fakeredis/commands_mixins/list_mixin.py:131-146 | RPOPLPUSH and LMOVE, for each of the four pairs of ends: the element at the chosen end of the first list is the answer and goes to the chosen end of the second one, or of what is left when they are one list; nothing else changes |
| `Blocking.PopPushResult` | fakeredis/commands_mixins/list_mixin.py:77-97 | A pass of BRPOPLPUSH: the answer is the last element of the source, which loses it, and the destination has it in front, also when they are one list; a destination of another type is an error without effect |
| `Blocking.PopPushWithoutSource` | fakeredis/commands_mixins/list_mixin.py:78-85 | Without a list at the source the pass changes nothing and answers with an error if it is the first one and the key is of another type, else with nothing |
| `Blocking.BlockResult` | fakeredis/_basefakesocket.py:469-473 | A client goes to sleep, not woken and in the operation it asked for, exactly when its first pass gave nothing outside a transaction |
| `Blocking.WakeResult` | fakeredis/_basefakesocket.py:484-486 | A woken client does the pass of its own operation as if it were awake, and sleeps again, in that operation, exactly when that gives nothing |
| `Blocking.UnblockedClientLeaves` | fakeredis/commands_mixins/connection_mixin.py:198-213 | After CLIENT UNBLOCK of a sleeping client, whatever the others do until it wakes, it is woken and leaves with an error or an empty answer, and takes nothing; a client that is not asleep is left alone and the answer is 0 |
| `Blocking.OtherResults` | fakeredis/_basefakesocket.py:476-480 | A time-out takes the client away with an empty answer; a write of any other command sets its key and wakes everyone |
| `Blocking.PassServesFirst` | fakeredis/commands_mixins/list_mixin.py:49-62 | A pass over several keys pops from the first one that has a list, and from no other: BLPOP its first element, BRPOP its last one, and the rest stays |
| `Blocking.PassFailsIff` | fakeredis/commands_mixins/list_mixin.py:52-56 | A pass is a type error if and only if it is the first one and meets a key of another type before any list |
| `Blocking.PassGivesNothingIff` | fakeredis/commands_mixins/list_mixin.py:49-62 | A pass gives nothing if and only if no key has a list and, on the first pass, none is of another type |
| `Blocking.FailedPass` | fakeredis/commands_mixins/list_mixin.py:77-97 | A pass that gives nothing changes nothing, and its client has nothing to pop |
| `Blocking.MovedInKeepsInvIff` | fakeredis/commands_mixins/generic_mixin.py:126-135 | MOVE into the database loses a wake-up if and only if somebody sleeps on the key with no wake-up pending |
| `Blocking.MoveLosesWakeup` | fakeredis/commands_mixins/generic_mixin.py:132 | A client asleep in BLPOP on a key is not woken when MOVE brings a list there |
| `Blocking.Database.Writeback` | fakeredis/_commands.py:96-105 | The commit of a modified list stores it, or removes the key when it is empty, and notifies every sleeper |
| `Blocking.Database.BpopPass` | fakeredis/commands_mixins/list_mixin.py:49-62 | The loop over the keys is the pass the theorems are about |
| `Blocking.Database.BrpoplpushPass` | fakeredis/commands_mixins/list_mixin.py:77-97 | The right end of the source becomes the left end of the destination, also when they are one list; errors as in the pass |
| `Blocking.Database.Start` | fakeredis/_basefakesocket.py:469-473 | The first pass: the client sleeps exactly when it got nothing and is not in a transaction |
| `Blocking.Database.Retry` | fakeredis/_basefakesocket.py:481-489 | A notified client takes its unblock reason first, then tries again, then goes back to sleep |
| `Blocking.Database.ClientUnblock` | fakeredis/commands_mixins/connection_mixin.py:198-213 | The target gets its reason and every sleeper is notified; 0 when the target is not asleep |
| `Blocking.InsertAll` | fakeredis/commands_mixins/list_mixin.py:193-198 | Values inserted one at a time at the left end up in reverse order before the list, at the right in order behind it |
| `Blocking.Database.PushValues` | fakeredis/commands_mixins/list_mixin.py:193-204 | A push extends the list and notifies; a list of another type is an error, and the X form ignores a missing key |
| `Blocking.Database.PopValues` | fakeredis/commands_mixins/list_mixin.py:14-43 | A pop takes the given number from one end, from the end inwards, and at most what is there; a negative count or a second argument is an error, and so is a list of another type |
| `Blocking.Database.MoveElement` | fakeredis/commands_mixins/list_mixin.py:131-146 | One element moves from an end of one list to an end of another, or of the same one |
| `Transactions.Server.Process` | fakeredis/_basefakesocket.py:272-311 | Every request of every session gets its reply, keeps flags, tables and history in agreement and is recorded in the history as it happened, touched keys included; queuing leaves all contents alone; EXEC is refused after a rejected request, answers nil exactly when a watched key was touched, and otherwise has the effect and the replies of the queued commands run in order; every key whose value changed, in any database, is touched in the history, except those that a command stored directly, changed in place or exchanged without writing them back |
| `Transactions.Server.ProcessOther` | fakeredis/commands_mixins/transactions_mixin.py:24-88 | The requests that run no command leave all contents alone; their replies and what the history gains |
| `Transactions.Server.RunOrEnqueue` | fakeredis/_basefakesocket.py:297-302 | A command joins the queue of an open transaction, or runs at once |
| `Transactions.Server.RunExec` | fakeredis/commands_mixins/transactions_mixin.py:40-65 | EXEC against the history: nil if and only if dirty, an error if a request was rejected since MULTI, and otherwise its replies are those of the queued commands one by one, each run on what the one before it left, and so are the contents and the selected database; no effect otherwise, and no watches left |
| `Transactions.DirtyIffTouchedSinceWatch` | fakeredis/commands_mixins/transactions_mixin.py:24-28 | A session is dirty if and only if some key was touched after the session watched it, with no clearing of its watches since it did |
| `Transactions.WatchedIffHeld` | fakeredis/commands_mixins/transactions_mixin.py:80-88 | A key is in a session's watches if and only if the session watched it and has not cleared its watches since |
| `Transactions.SinceMulti` | fakeredis/commands_mixins/transactions_mixin.py:67-73 | Since MULTI, the queue is what the session enqueued, in order, and the transaction has failed if and only if a request was rejected |
| `Transactions.Server.NotifyWatch` | fakeredis/_helpers.py:159-162 | Exactly the sessions that watch the key become dirty |
| `Transactions.Server.Writeback` | fakeredis/_commands.py:96-105 | Committing a modified key touches it in the history and stores or removes the value |
| `Transactions.Server.RunData` | fakeredis/_basefakesocket.py:321-349 | A command changes objects in place, stores what it stores directly, then commits all its modified items in order, in whatever database each belongs to; the keys touched are exactly those of the items committed |
| `Transactions.Server.WritebackAll` | fakeredis/_basefakesocket.py:344-345 | The loop over the items commits each of them in order and touches exactly their keys |
| `Transactions.Server.Store` | fakeredis/commands_mixins/generic_mixin.py:132 | A direct store changes one key and notifies nobody |
| `Transactions.Server.ChangeInPlace` | fakeredis/commands_mixins/list_mixin.py:266-267 | Objects change in place, and the databases hold what they held |
| `Transactions.Server.RunSwap` | fakeredis/commands_mixins/server_mixin.py:57-63 | SWAPDB exchanges the contents of two databases and touches nothing |
| `Commands.CommandChanges` | fakeredis/_basefakesocket.py:321-349 | Whatever a command changes, it reports or is among the keys it may change silently: stored directly, holding an object changed in place, or exchanged |
| `Commands.QueueChanges` | fakeredis/commands_mixins/transactions_mixin.py:55-65 | So it is for the commands of a transaction together |
| `Commands.DataResult` | fakeredis/_basefakesocket.py:321-349 | After an ordinary command a key holds what was written back last under it, or else what was stored directly, or else what it held; the objects are those created or changed and the others as they were; the reply is the command's |
| `Commands.OtherResult` | fakeredis/commands_mixins/server_mixin.py:26-63 | FLUSHDB empties the selected database and FLUSHALL all, SWAPDB lets two change places, SELECT changes the session's database, an index too large is an error, and nothing else changes |
| `Commands.WrittenBinds` | fakeredis/_basefakesocket.py:344-345 | Of several items committed under one key the last one stays |
| `Commands.WrittenLeaves` | fakeredis/_basefakesocket.py:344-345 | A key that no item committed is under keeps what it held |
| `Commands.TouchedIff` | fakeredis/_commands.py:96-98 | A command touches exactly the keys of the items it commits, in databases there are, or the keys stored in a database it clears |
| `Commands.ApplyAllIsChain` | fakeredis/commands_mixins/transactions_mixin.py:55-65 | Running commands together is running them one by one, each on what the one before it left, and touches what they touch |
| `Commands.ChainIsApplyAll` | fakeredis/commands_mixins/transactions_mixin.py:55-65 | A chain of single commands leads to the contents, the selected database and the replies of running them together |
| `Commands.WrittenRebinds` | fakeredis/_basefakesocket.py:344-345 | Committing items gives only their keys another object |
| `Commands.ReboundOrChanged` | fakeredis/_commands.py:55-94 | A value changes only if its key gets another object or its object is changed in place |
| `Transactions.Server.ClearDatabase` | fakeredis/_helpers.py:189-192 | Clearing a database touches exactly the keys stored in it |
| `Transactions.Server.NotifyAll` | fakeredis/_helpers.py:190-191 | The loop of a clearing touches exactly the given keys |
| `Transactions.Server.ClearNext` | fakeredis/commands_mixins/server_mixin.py:36-37 | One round of FLUSHALL empties one database more and touches exactly the keys stored in it |
| `Transactions.Server.RunFlush` | fakeredis/commands_mixins/server_mixin.py:26-39 | FLUSHDB and FLUSHALL have their effect on contents and touch exactly the keys cleared |
| `Transactions.Server.RunSelect` | fakeredis/commands_mixins/connection_mixin.py:52-56 | SELECT changes the session's database and nothing else |
| `Transactions.Server.ClearWatches` | fakeredis/commands_mixins/transactions_mixin.py:24-28 | Afterwards the session watches nothing, no key lists it as a watcher, and it is not dirty |
| `Transactions.Server.Unlink` | fakeredis/commands_mixins/transactions_mixin.py:26-28 | Popping one watched key keeps both sides of the watch tables in agreement |
| `Transactions.Server.Link` | fakeredis/commands_mixins/transactions_mixin.py:83-87 | Watching one key keeps both sides of the watch tables in agreement |
| `Transactions.Database.AddWatch` | fakeredis/_helpers.py:174-175 | The session becomes a watcher of the key, and no other watcher changes |
| `Transactions.Database.RemoveWatch` | fakeredis/_helpers.py:177-181 | The session stops being a watcher of the key, and no other watcher changes, whether or not the entry disappears |
| `Transactions.Server.WatchKey` | fakeredis/commands_mixins/transactions_mixin.py:83-87 | The key and the current database join the session's watches and the history |
| `Transactions.Server.RunWatch` | fakeredis/commands_mixins/transactions_mixin.py:80-88 | WATCH inside MULTI is an error without effect; otherwise all keys are watched in order |
| `Transactions.Server.WatchKeys` | fakeredis/commands_mixins/transactions_mixin.py:83-87 | The loop of WATCH records every key, in order, in the watches and in the history |
| `Transactions.Server.RunCommand` | fakeredis/_basefakesocket.py:321-349 | A command that is run at once has its specified effect and touches exactly the keys it reports |
| `Transactions.Server.RunQueue` | fakeredis/commands_mixins/transactions_mixin.py:55-65 | Running the queue one by one equals running it in one step, reply list included, and reports exactly the keys that step touches |
| `Transactions.Server.StartMulti` | fakeredis/commands_mixins/transactions_mixin.py:67-73 | Nested MULTI is an error without effect; otherwise queue and failure flag start afresh |
| `Transactions.Server.RunDiscard` | fakeredis/commands_mixins/transactions_mixin.py:30-38 | DISCARD drops transaction and watches; without MULTI it is an error without effect |
| `Transactions.Server.Enqueue` | fakeredis/_basefakesocket.py:297-299 | Queuing appends to this session's queue and to the history |
| `Transactions.Server.Fail` | fakeredis/_basefakesocket.py:303-305 | An error outside a command's function fails an open transaction |
| `Transactions.Server.Reject` | fakeredis/_basefakesocket.py:303-311 | A rejected request fails the transaction; a rejected EXEC abandons it and clears the watches even outside MULTI |
| `Transactions.Server.Connect` | fakeredis/commands_mixins/transactions_mixin.py:12-22 | A new session starts with no watches and no transaction, and all tables still agree |
| `Transactions.Server.constructor` | fakeredis/_helpers.py:147-153 | A new server has empty databases, no sessions and an empty history that agree |
| `Locking.ExecFindsWatchedValue` | fakeredis/commands_mixins/transactions_mixin.py:40-65 | What WATCH is for: over any run of requests of any sessions after which EXEC would run the queue, a key still watched has the value it had when it was watched, unless a request changed it silently: stored directly, in place or by exchange, and not written back |
| `Locking.UndirtiedKeyIsUnchanged` | fakeredis/commands_mixins/transactions_mixin.py:12-28 | The same for a session that is not dirty |
| `Locking.StaysWatched` | fakeredis/_helpers.py:159-162 | A key watched stays watched until the watches are cleared, and a touch of it makes the session dirty |
| `Reporting.DataTellsAllIff` | fakeredis/_basefakesocket.py:321-349 | An ordinary command reports all it changes if and only if no key that it stores directly or whose object it changes in place, and that it does not commit, ends up with another value |
| `Reporting.UnreportedIff` | fakeredis/_commands.py:96-98 | A change in place that is not marked is reported if and only if it changes nothing; so it is with XDEL, LMPOP and the others below, and with VREM, CF.DEL, CMS.MERGE, TDIGEST.RESET, TDIGEST.ADD, TS.MADD and TS.DEL |
| `Reporting.WrittenBackIff` | fakeredis/_commands.py:96-105 | A change in place that is marked is reported if and only if it changes nothing or no other key holds the object |
| `Reporting.MoveReportsIff` | fakeredis/commands_mixins/generic_mixin.py:126-135 | MOVE reports all it changes if and only if it moves nothing: the key it brings to the other database is not reported |
| `Reporting.CopySharesObject` | fakeredis/commands_mixins/generic_mixin.py:374-388 | COPY reports what it changes; after it the two keys hold one object |
| `Reporting.RpushReportsIff` | fakeredis/commands_mixins/list_mixin.py:264-269 | A push reports all it changes if and only if no other key holds the list |
| `Reporting.XdelReportsIff` | fakeredis/commands_mixins/streams_mixin.py:134-139 | XDEL reports all it changes if and only if it comes to no entry that is stored |
| `Reporting.DeleteAllChangesIff` | fakeredis/model/_stream.py:491-505 | A deletion changes the stream if and only if an argument denotes a stored entry and those before it are ids that are not there |
| `Reporting.XaddReportsIff` | fakeredis/commands_mixins/streams_mixin.py:16-46 | XADD to a stream reports all it changes if and only if the id is refused, or the trimming it asks for does not raise and no other key holds the stream (or all that was added is trimmed off at once) |
| `Reporting.LmpopReportsIff` | fakeredis/commands_mixins/list_mixin.py:167-178 | LMPOP, and each pass of BLMPOP, reports all it changes if and only if it pops nothing: the first key that holds something holds no list |
| `Reporting.HexpireReportsIff` | fakeredis/commands_mixins/hash_mixin.py:158-191 | HEXPIRE and its kin, and HGETEX, report all they change if and only if the time has not passed or no admitted field is there |
| `Reporting.ArmsetReportsIff` | fakeredis/commands_mixins/array_mixin.py:44-56 | ARMSET to an array reports all it changes if and only if it sets nothing new, or no index is negative and no other key holds the array |
| `Reporting.MoveResult` | fakeredis/commands_mixins/generic_mixin.py:126-135 | MOVE takes the value to the other database if that exists and is another one, the key is there, and it is free in the other; else an error or 0 without effect |
| `Reporting.CopyResult` | fakeredis/commands_mixins/generic_mixin.py:374-388 | COPY succeeds if the source is there and the target is free or to be replaced, in a database there is and not the same key; both hold the source's value then |
| `Reporting.RpushResult` | fakeredis/commands_mixins/list_mixin.py:265-269 | RPUSH leaves the list with the values behind it, in order, and answers with its length |
| `Reporting.XdelResult` | fakeredis/commands_mixins/streams_mixin.py:130-135 | XDEL of ids takes exactly those out of the stream and answers with how many were there |
| `Reporting.HexpireResult` | fakeredis/commands_mixins/hash_mixin.py:158-191 | A time that has passed takes exactly the fields given out of the hash |
| `Reporting.LmpopResult` | fakeredis/commands_mixins/list_mixin.py:167-178 | LMPOP takes as many elements as asked for, or as there are, off the chosen end of the first list it comes to |
| `Reporting.LmpopElsewhere` | fakeredis/commands_mixins/list_mixin.py:160-178 | At a value that is neither empty nor a list a pop fails, and with nothing to come to it answers nil, both without effect |
| `Reporting.EmptyValues` | fakeredis/commands_mixins/list_mixin.py:14-16 | A pop passes over a missing key and over an empty list, hash or array |
| `Reporting.ArmsetResult` | fakeredis/commands_mixins/array_mixin.py:44-56 | ARMSET succeeds if no index is negative; if one is, the slots before it are set all the same when the array was there |
| `Reporting.XaddResult` | fakeredis/commands_mixins/streams_mixin.py:16-46 | XADD appends the entry under the id asked for; MAXLEN leaves that many of the last entries; a malformed trimming is an error that is found after the entry was added to a stream that was there |
| `Reporting.SlotsSetResult` | fakeredis/commands_mixins/array_mixin.py:44-56 | ARMSET sets each slot to the last value given for it before the first negative index |
| `Reporting.SwapTellsAllIff` | fakeredis/commands_mixins/server_mixin.py:57-63 | SWAPDB does if and only if the two databases hold the same |
| `Reporting.OthersTellAll` | fakeredis/commands_mixins/server_mixin.py:26-39 | FLUSHDB, FLUSHALL, SELECT and UNWATCH do |
| `Reporting.MissedIff` | fakeredis/commands_mixins/transactions_mixin.py:12-28 | A clean session that watches one key misses a command, and stays clean, exactly when the command changes the key without reporting it |
| `Reporting.MoveEscapesWatch` | fakeredis/commands_mixins/generic_mixin.py:132 | A run from empty databases: RPUSH, WATCH of the key in the other database, MOVE there; the key has changed and the session is not dirty |
| `Reporting.LmpopEscapesWatch` | fakeredis/commands_mixins/list_mixin.py:167-178 | The same for RPUSH, WATCH, LMPOP |
| `Reporting.XdelEscapesWatch` | fakeredis/commands_mixins/streams_mixin.py:134-139 | The same for XADD, WATCH, XDEL |
| `Reporting.HexpireEscapesWatch` | fakeredis/commands_mixins/hash_mixin.py:158-191 | The same for HSET, WATCH, HEXPIRE with a time that has passed |
| `Reporting.XaddEscapesWatch` | fakeredis/commands_mixins/streams_mixin.py:16-46 | The same for XADD, WATCH, XADD with a MINID that is no id |
| `Reporting.ArmsetEscapesWatch` | fakeredis/commands_mixins/array_mixin.py:44-56 | The same for ARMSET, WATCH, ARMSET of a slot and then of a negative index |
| `Reporting.SwapEscapesWatch` | fakeredis/commands_mixins/server_mixin.py:57-63 | The same for RPUSH, WATCH, SWAPDB |
| `Reporting.InPlaceEscapesWatch` | fakeredis/_commands.py:96-98 | The same for any two values of a key and any command that changes one into the other in place without marking it |
| `Reporting.CopyEscapesWatch` | fakeredis/commands_mixins/generic_mixin.py:384-388 | The same for RPUSH, COPY, WATCH of the copy, RPUSH to the original |
| `Resp.ParsingInvertsEncoding` | fakeredis/_basefakesocket.py:244-270 | For every list of commands, every cut of its encoding into chunks and every placing of pauses and resumes, the commands processed are a prefix of the list, and the whole list unless the parser is paused |
| `Resp.PausedParserWaits` | fakeredis/_basefakesocket.py:252-253 | Over any run: from a moment when the parser is paused, as long as no resume comes, it processes at most the command it was in the middle of, and none if it was between two, whatever data arrives |
| `Resp.PausedIff` | fakeredis/_basefakesocket.py:176-181 | Over any run: the parser is paused if and only if some event has paused it, a pause or a command that blocks, and no event since has resumed it |
| `Resp.NextCommandNeedsResume` | fakeredis/_basefakesocket.py:252-270 | Over any run, whatever the data: once a command that blocks was processed, another is processed only after a resume that came when just the commands up to it had been |
| `Resp.BlockedCommandIsLast` | fakeredis/_basefakesocket.py:252-270 | Of encoded commands, with no resume after the event in which one that blocks is processed, exactly those up to it have been processed, however much more data arrives |
| `Resp.SettleStopsAtBlocking` | fakeredis/_basefakesocket.py:251-270 | Between two suspensions the parser processes nothing after a command that blocks |
| `Resp.HeaderResult` | fakeredis/_basefakesocket.py:254-259 | A malformed header ends the parser without a command, and a count of 0 or less is a command without fields |
| `Resp.DeadForever` | fakeredis/_basefakesocket.py:230-240 | Over any run: a parser that has ended processes nothing more |
| `Resp.ParseIntIff` | fakeredis/_basefakesocket.py:258 | A text is a number if and only if it is digits with single underscores between them, with or without a sign, and white space around |
| `Resp.SpacesAre` | fakeredis/_basefakesocket.py:257 | Which bytes are white space and which are digits |
| `Resp.LineNumberIff` | fakeredis/_basefakesocket.py:254-258 | A header line is read as a number if and only if it is the mark, a text that is that number, and CR LF |
| `Resp.RunStaysOnCourse` | fakeredis/_basefakesocket.py:244-270 | After any prefix of the data the parser has processed the first commands exactly and holds just the rest |
| `Resp.SettleStaysOnCourse` | fakeredis/_basefakesocket.py:251-270 | Running to the next suspension keeps the parser on course |
| `Resp.SettledMeansDone` | fakeredis/_basefakesocket.py:251-270 | A parser that has everything, is suspended and is not paused has processed the whole list |
| `Resp.HeaderIsRead` | fakeredis/_basefakesocket.py:230-242 | A header line is read back as the number it was written for, whatever follows |
| `Slices.SlicesMeet` | fakeredis/_basefakesocket.py:268-269 | The two slices at one position are the whole; the first has as many elements as the position says, or leaves out as many as it is below zero |
| `Resp.ParseIntOfDecimal` | fakeredis/_basefakesocket.py:257 | The decimal spelling of a length is read back as the length |
| `Resp.SettlingEarly` | fakeredis/_basefakesocket.py:244-270 | Suspending before more data arrives makes no difference, unless a length is negative |
| `Resp.ChunksCanBeJoinedIff` | fakeredis/_basefakesocket.py:244-270 | Data, well formed or not, may be followed by any more data in the same piece or in another one, with the same state at the end, if and only if no length read from it is negative |
| `Resp.NegativeLengthDependsOnChunks` | fakeredis/_basefakesocket.py:265-269 | With a field length of -1 the command processed does depend on how the data was cut |
| `Resp.Parser.PauseParser` | fakeredis/_basefakesocket.py:176-177 | Pausing only sets the switch |
| `Resp.Parser.ResumeParser` | fakeredis/_basefakesocket.py:179-181 | Resuming clears the switch and runs the generator to its next suspension |
| `Resp.Parser.ProcessCommand` | fakeredis/_basefakesocket.py:270 | The complete command is handed over once, and the engine may pause the parser |
| `Resp.Parser.ReadBody` | fakeredis/_basefakesocket.py:266-269 | A field body and its line end leave the buffer |
| `Resp.Parser.ReadLine` | fakeredis/_basefakesocket.py:251-265 | A header line leaves the buffer and decides what is read next; a malformed one ends the generator |
| `Resp.Parser.SendData` | fakeredis/_basefakesocket.py:244-270 | One send runs the generator to its next suspension |
| `Lcs.LongestCommonSubsequence` | fakeredis/commands_mixins/string_mixin.py:25-66 | The result is a common subsequence of both strings, no common subsequence is longer, and the length returned is its length |
| `Lcs.FillTables` | fakeredis/commands_mixins/string_mixin.py:36-46 | Every cell holds the optimum for its prefixes and a direction that attains it |
| `Lcs.TraceBack` | fakeredis/commands_mixins/string_mixin.py:51-65 | Following the directions yields a common subsequence of the optimal length |
| `Lcs.CommonIsBounded` | fakeredis/commands_mixins/string_mixin.py:35-47 | No common subsequence of two prefixes is longer than the recurrence says |
| `Bitfield.StringItem.BitfieldSet` | fakeredis/commands_mixins/bitmap_mixin.py:208-247 | Every branch of a write: what WRAP, SAT and FAIL make of the sum for INCRBY and of the number given for SET, said without the code; INCRBY answers with the new and SET with the old value, every other bit is as before, and the string grows as needed |
| `Bitfield.StringItem.BitfieldGet` | fakeredis/commands_mixins/bitmap_mixin.py:200-206 | A read returns the number the field's bits denote, sign included |
| `Bitfield.StringItem.SetBit` | fakeredis/commands_mixins/bitmap_mixin.py:147-167 | One bit changes, the old value is returned, all other bits stay, the string grows as needed, and the key counts as modified exactly when the string changed |
| `Bitfield.StringItem.WriteBits` | fakeredis/commands_mixins/bitmap_mixin.py:244-246 | The loop stores the value modulo 2^n in the field and leaves all other bits alone |
| `Bitfield.StringItem.StoreField` | fakeredis/commands_mixins/bitmap_mixin.py:244-246 | A value of the field's type is stored and reads back as itself, and nothing else changes |
| `Bitfield.ReplaceBit` | fakeredis/commands_mixins/bitmap_mixin.py:157-162 | One bit of a byte changes and the other seven stay |
| `Bitfield.GetBit` | fakeredis/commands_mixins/bitmap_mixin.py:134-144 | A bit of the zero-extended string; a missing key is all zeros |
| `Bitfield.Resolve` | fakeredis/commands_mixins/bitmap_mixin.py:229-242 | What is stored meets the policy: WRAP the congruent value in range, SAT the nearest one, FAIL the target or nothing |
| `Bitfield.WrittenAsTargeted` | fakeredis/commands_mixins/bitmap_mixin.py:224-247 | INCRBY aims at the field's value plus the increment and SET at the number given, taken modulo 2^64 for an unsigned field: WRAP stores a number congruent to that, SAT the nearest one in range, FAIL the number itself or nothing; INCRBY answers with what is stored and SET with what was |
| `Bitfield.CastIsCongruent` | fakeredis/commands_mixins/bitmap_mixin.py:226-227 | The cast to 64 bits leaves a number as it is modulo every smaller power of two |
| `Bitfield.FieldFitsCast` | fakeredis/commands_mixins/bitmap_mixin.py:226-227 | The value of an unsigned field is not changed by the cast |
| `Bitfield.ByteIsSumOfBits` | fakeredis/commands_mixins/bitmap_mixin.py:144 | A byte is the sum of what its bits are worth |
| `Bitfield.BitsOfBytes` | fakeredis/commands_mixins/bitmap_mixin.py:137-144 | Bit number 8i+j of a string is bit 7-j of byte i, and clear beyond the end |
| `Bitfield.MeetsIsDeterministic` | fakeredis/commands_mixins/bitmap_mixin.py:229-242 | The policies determine the stored value completely |
| `Bitfield.RepresentativeIsUnique` | fakeredis/commands_mixins/bitmap_mixin.py:238-242 | Only one value of a type is congruent to a number modulo 2^size |
| `Bitfield.Normalised` | fakeredis/commands_mixins/bitmap_mixin.py:238-242 | Masking and moving the sign gives the type's representative of a number |
| `Bitfield.StoredValue` | fakeredis/commands_mixins/bitmap_mixin.py:200-206 | Bits that agree with an in-range value modulo 2^size read back as that value |
| `Bitfield.FieldValueInRange` | fakeredis/commands_mixins/bitmap_mixin.py:217-222 | Every field value lies in the range of its type |
| `Bitfield.UnsignedDependsOnField` | fakeredis/commands_mixins/bitmap_mixin.py:200-206 | A field's number depends on the field's bits alone |
| `Bitfield.DisjointFieldsKeepTheirValue` | fakeredis/commands_mixins/bitmap_mixin.py:208-247 | A write leaves the value of every field that does not overlap it |
| `Glob.CompilePattern` | fakeredis/_helpers.py:76-143 | The compiler ends on every pattern and emits the text of its nodes: read as a regular expression, brackets, carets and members included, the text is those nodes |
| `Glob.TextIsRead` | fakeredis/_helpers.py:76-143 | The text that is emitted, read as a regular expression, is the list of nodes it was emitted for, whatever these are |
| `Glob.CompileClass` | fakeredis/_helpers.py:104-138 | The bracket branch consumes exactly the bracket expression and emits its node |
| `Glob.CompileMembers` | fakeredis/_helpers.py:110-126 | The member loop consumes and emits exactly the members, escapes and ranges included |
| `Glob.CloseClass` | fakeredis/_helpers.py:127-138 | An empty bracket expression is rewritten, any other one closed; the assertion in the source never fails |
| `Glob.ClassHitIsMembership` | fakeredis/_helpers.py:110-126 | Matching a bracket expression directly is membership in the emitted items |
| `Glob.ClassEndsAfterMembers` | fakeredis/_helpers.py:112-129 | A bracket expression is cut into members, escaped characters, ranges and single characters, in just one way, and ends behind the first closing bracket that is no part of one, or with the pattern |
| `Glob.ClassCanBeCutUp` | fakeredis/_helpers.py:112-129 | Every bracket expression can be cut into members |
| `Glob.ClassHitIff` | fakeredis/_helpers.py:112-129 | A character matches the members if and only if one of them is that character or a range, in either order, that it lies in |
| `Glob.PlainMatchesItself` | fakeredis/_helpers.py:139-140 | A stretch of plain characters matches itself, whatever comes behind it |
| `Glob.StarMatchesAnything` | fakeredis/_helpers.py:101-102 | A star matches any beginning of the string, the empty one and the whole included |
| `Glob.OneCharacter` | fakeredis/_helpers.py:99-138 | A question mark, an escaped character and a bracket expression each match one character |
| `Glob.StrictMeaningIsGlob` | fakeredis/_helpers.py:76-143 | With the empty group read as matching nothing, the nodes accept exactly what the glob accepts |
| `Glob.MatchesExactly` | fakeredis/_helpers.py:127-143 | With the empty group read as the regular expression it is, the nodes accept in addition exactly a final newline at such a group followed by stars only |
| `Glob.CompilationPreservesMeaning` | fakeredis/_helpers.py:76-143 | The compiled pattern and the glob agree on a string if and only if that newline is not involved |
| `Glob.CompilationAgrees` | fakeredis/_helpers.py:76-143 | They agree on every string when the pattern has no empty bracket expression or the string does not end in a newline |
| `Glob.EmptyGroupAcceptsNewline` | fakeredis/_helpers.py:129 | The pattern [] accepts a single newline |
| `Glob.EscapeMatchesOnlyItself` | fakeredis/_helpers.py:99-103 | A string with a backslash before every character is a pattern that matches only that string |
| `Geohash.GeoEncode` | fakeredis/geo/geohash.py:53-83 | The loop computes the encoding by nested halvings, for every precision |
| `Geohash.GeoDecode` | fakeredis/geo/geohash.py:11-50 | The loop computes the box and margins of a hash; a character outside the alphabet is an error |
| `Geohash.NextInterval` | fakeredis/geo/geohash.py:63-69 | The half that holds the coordinate is taken and its bit is set |
| `Geohash.DecodeDigit` | fakeredis/geo/geohash.py:22-47 | The five bits of a character halve the intervals in turn |
| `Geohash.HashBitsOfEncode` | fakeredis/geo/geohash.py:53-83 | The bits of an encoding are the side choices of the point |
| `Geohash.PointStaysInBox` | fakeredis/geo/geohash.py:63-76 | A point stays in the box of its bits |
| `Geohash.WorldIsWhole` | fakeredis/geo/geohash.py:17 | The first box is the whole world, 180 by 360 degrees around the origin |
| `Geohash.PointIsAboveLowerEnd` | fakeredis/geo/geohash.py:61-83 | A point on the line between two boxes belongs to the lower one |
| `Geohash.Base32Letters` | fakeredis/geo/geohash.py:7 | The alphabet is the ten digits and the small letters but a, i, l and o, in ascending order |
| `Geohash.ErrorMargins` | fakeredis/geo/geohash.py:18-50 | The margins are 90/2^floor(5n/2) and 180/2^ceil(5n/2) |
| `Geohash.Widths` | fakeredis/geo/geohash.py:22-47 | A box after k bits has the widths 180/2^floor(k/2) and 360/2^ceil(k/2) |
| `Geohash.HalvedIsQuotient` | fakeredis/geo/geohash.py:22-47 | Repeated halving is division by a power of two |
| `Geohash.DecodeOfEncodeIsClose` | fakeredis/geo/geohash.py:11-83 | Decoding an encoded point lands within the margins of it |
| `Geohash.EncodeOfDecodeIsIdentity` | fakeredis/geo/geohash.py:11-83 | Every hash is the encoding of the centre it decodes to |
| `Geohash.Base32RoundTrips` | fakeredis/geo/geohash.py:4-83 | Both round trips for the alphabet of the source |
| `Geohash.BitsDetermineHash` | fakeredis/geo/geohash.py:53-83 | A point with the bits of a hash is encoded as that hash |
| `Geohash.CentreHasBits` | fakeredis/geo/geohash.py:11-50 | The centre of a box lies on the side that each of its bits says |
| `Geohash.ShorterIsPrefix` | fakeredis/geo/geohash.py:53-83 | A shorter encoding is a prefix of a longer one |
| `Geohash.BoxesNest` | fakeredis/geo/geohash.py:22-47 | The box of more bits lies within the box of fewer |
| `Scan.BinReverse` | fakeredis/_basefakesocket.py:70-75 | The loop reverses the low bits of the cursor |
| `Scan.ReversalIsInvolution` | fakeredis/_basefakesocket.py:70-75 | Reversing n-bit numbers twice gives them back |
| `Scan.OneMoreBitReversed` | fakeredis/_basefakesocket.py:70-75 | Read with one bit more, a cursor stands for twice the index, and one more if its next bit is set |
| `Scan.BitLengthIsLeast` | fakeredis/_basefakesocket.py:553 | The width of a cursor is the least number of bits that will do |
| `Scan.ReverseBit` | fakeredis/_basefakesocket.py:72-74 | One round moves one bit to its mirror position |
| `Scan.ScanOnce` | fakeredis/_basefakesocket.py:545-580 | One call returns the keys of the page at the cursor's index that pass MATCH and TYPE, and the next cursor; a COUNT that is not positive is an error |
| `Scan.KeepMatching` | fakeredis/_basefakesocket.py:560-576 | The filters drop from a page just the keys that do not pass |
| `Scan.NextCursor` | fakeredis/_basefakesocket.py:577-580 | The returned cursor stands for the index after the page, and is 0 only after the last page |
| `Scan.PagesAreTheRest` | fakeredis/_basefakesocket.py:545-580 | The remaining pages of an iteration are exactly the sorted keys from the cursor's index on |
| `Scan.FullIterationReturnsAll` | fakeredis/_basefakesocket.py:518-530 | Over fixed keys a full iteration ends and returns the sorted keys, each once, for all positive counts |
| `Scan.FilteredIterationReturnsMatches` | fakeredis/_basefakesocket.py:518-580 | With MATCH or TYPE a full iteration over fixed keys returns exactly the keys that pass, in order |
| `Scan.RunCovers` | fakeredis/_basefakesocket.py:518-530 | Over any run of calls, insertions and deletions, whatever they do to the cursor width, in which every insertion and deletion is harmless: every lasting key before the cursor has been returned |
| `Scan.FinishedIterationIsComplete` | fakeredis/_basefakesocket.py:518-530 | When such an iteration ends it has returned every key present throughout |
| `Scan.IterationEnds` | fakeredis/_basefakesocket.py:545-580 | While the cursor width stays the same there are never more calls than cursors, so the iteration ends |
| `Scan.InsertionKeepsReachIff` | fakeredis/_basefakesocket.py:545-580 | Inserting a key keeps the keys still to be visited in reach if and only if cursors do not become wider or the cursor stands so low that doubling its index passes nothing |
| `Scan.DeletionKeepsReachIff` | fakeredis/_basefakesocket.py:545-580 | Deleting a key keeps the others still to be visited in reach if and only if the cursor has not passed it or cursors become narrower |
| `Scan.IndexAfterInsertion` | fakeredis/_basefakesocket.py:557-560 | An insertion leaves the cursor's index, or doubles it when cursors become wider |
| `Scan.IndexAfterDeletion` | fakeredis/_basefakesocket.py:557-560 | A deletion leaves it, or halves it when cursors become narrower |
| `Scan.InsertionLosesKeys` | fakeredis/_basefakesocket.py:518-530 | A run from the start: two of four keys are returned, a fifth is inserted behind them, and the iteration ends without the other two |
| `Scan.DeletionLosesKey` | fakeredis/_basefakesocket.py:518-530 | A run from the start: one of four keys is returned and deleted, and the iteration ends without the next one |
| `Ring.Array.Set` | fakeredis/model/_array.py:33-37 | One slot is written; the answer says whether it was free |
| `Ring.Array.Delete` | fakeredis/model/_array.py:39-45 | One slot and its insertion record go, together or not at all |
| `Ring.Array.TruncateAt` | fakeredis/model/_array.py:47-50 | Slots and insertion records beyond the size go, and nothing else |
| `Ring.Array.RecordInsert` | fakeredis/model/_array.py:52-55 | The index becomes the latest insertion, once |
| `Ring.Array.Arring` | fakeredis/commands_mixins/array_mixin.py:71-85 | ARRING drops slots beyond the size and puts the values round the ring; a size that is not positive is refused without effect |
| `Ring.Array.LastItems` | fakeredis/model/_array.py:57-61 | The values of the latest insertions that are still stored |
| `Ring.PutAllKeepsRing` | fakeredis/commands_mixins/array_mixin.py:79-84 | Putting more values makes the ring of the longer log |
| `Ring.ArringResult` | fakeredis/commands_mixins/array_mixin.py:70-85 | ARRING on any array: a slot holds the last of the values that came round to it, or else what it held; slots beyond the size go, and the cursor moves by the number of values |
| `Ring.TruncatedResult` | fakeredis/model/_array.py:47-50 | Truncation drops the slots from the size on and their records, and leaves the others, their order and the cursor |
| `Ring.RecentIsEnd` | fakeredis/model/_array.py:57-61 | For every count: the items are the end of the order, as long as the count says, or shorter by as much as it is below zero |
| `Ring.RunIsRing` | fakeredis/commands_mixins/array_mixin.py:71-85 | However the values are spread over calls of one size, the array is the ring of their log |
| `Ring.SlotHoldsLatest` | fakeredis/commands_mixins/array_mixin.py:79-84 | Slot i holds the latest value whose insertion number is i modulo the size |
| `Ring.LastItemsAreLastOfLog` | fakeredis/model/_array.py:57-61 | For a count of at least 1 the items are the last min(count, m, size) values of the log, oldest first |
| `Ring.LastItemsCountIff` | fakeredis/model/_array.py:59-60 | The items are those the count asks for, and as many, if and only if the count is at least 1 or at most minus the number of items there |
| `ZSet.ZSet.Add` | fakeredis/model/_zset.py:23-32 | The map gains the pair, the list stays the sorted sequence of exactly the map's pairs, and the answer says whether the map changed |
| `ZSet.ZSet.Discard` | fakeredis/model/_zset.py:53-59 | The map loses the member, the list its pair, and nothing else |
| `ZSet.ZSet.RemoveEntry` | fakeredis/model/_zset.py:53-59 | The pair leaves the sorted list and no other does |
| `ZSet.ZSet.AddEntry` | fakeredis/model/_zset.py:23-32 | The pair enters the sorted list and no other does |
| `ZSet.InsertKeepsSorted` | fakeredis/model/_zset.py:23-32 | Inserting at the bisection keeps the list sorted |
| `ZSet.RemoveKeepsSorted` | fakeredis/model/_zset.py:53-59 | Removing one position keeps the list sorted and removes only that pair |
| `ZSet.ZSet.ZCount` | fakeredis/model/_zset.py:61-64 | The two bisections count exactly the members whose score lies in the range, open or closed at each end |
| `ZSet.ZSet.IrangeScore` | fakeredis/model/_zset.py:100-101 | The range is the filter of all pairs by score, reversed on request |
| `ZSet.ZSet.Rank` | fakeredis/model/_zset.py:103-105 | The rank counts the pairs that are smaller; a member that is not there is an error |
| `ZSet.RankCounts` | fakeredis/model/_zset.py:103-105 | The rank is the number of members with a lower score and of those with the same score that come first as strings |
| `Bytes.LessIff` | fakeredis/model/_zset.py:31 | Strings compare by their first difference, and a proper prefix comes first |
| `ZSet.ZSet.ZLexCount` | fakeredis/model/_zset.py:66-80 | The count is the number of pairs between the two endpoints, looked up with the lowest score |
| `ZSet.ZSet.IrangeLex` | fakeredis/model/_zset.py:85-98 | The range is the filter by the two endpoints, each looked up with its own member's score, reversed on request |
| `ZSet.ZSet.LowerPosition` | fakeredis/model/_zset.py:66-98 | The bisection for a lower endpoint, exclusive or not, divides the pairs below it from the rest |
| `ZSet.ZSet.UpperPosition` | fakeredis/model/_zset.py:66-98 | The bisection for an upper endpoint, exclusive or not, divides the pairs up to it from the rest |
| `ZSet.LexCountIsRangeLength` | fakeredis/model/_zset.py:66-98 | ZLEXCOUNT is the length of the lexicographic range as long as both look their endpoints up with the same score |
| `ZSet.LexCountsLowestScore` | fakeredis/model/_zset.py:66-80 | Whatever the scores, ZLEXCOUNT counts exactly the members of the lowest score that lie between the endpoints |
| `ZSet.LexSelectedIff` | fakeredis/model/_zset.py:85-98 | The lexicographic range between two strings is made of the pairs from the one to the other, in or out, each with its own score if it is a member and else with the lowest |
| `ZSet.ScoreRangeIs` | fakeredis/model/_zset.py:61-64 | An end of a score range that is excluded leaves out just the scores equal to it |
| `ZSet.LexRangeIs` | fakeredis/model/_zset.py:85-98 | An end of a range of strings that is excluded leaves out just that string; - and + leave out nothing |
| `ZSet.EqualScoresGiveLexOrder` | fakeredis/model/_zset.py:66-98 | With equal scores they do, both select by member alone, and the order is the members' own |
| `ZSet.ScoreBounds` | fakeredis/commands_mixins/sortedset_mixin.py:75-81 | The two bound objects turn inclusive and exclusive score ends into positions correctly |
| `ZSet.SliceCounts` | fakeredis/model/_zset.py:61-64 | Positions in the list count members of the map |
| `KeyExpiry.Database.RemoveExpired` | fakeredis/_helpers.py:197-201 | A purge leaves exactly the items that have not expired |
| `KeyExpiry.Database.GetItem` | fakeredis/_helpers.py:203-208 | A lookup drops an expired item and then answers as if it had never been there |
| `KeyExpiry.Database.DelItem` | fakeredis/_helpers.py:213-214 | The raw deletion removes what is stored, expired or not; a key that is not stored is an error |
| `KeyExpiry.Database.PopItem` | fakeredis/_commands.py:100 | A removal is a lookup, which drops an expired item, and then a deletion |
| `KeyExpiry.Database.Iter` | fakeredis/_helpers.py:216-218 | Iteration yields exactly the keys of live items |
| `KeyExpiry.Database.Len` | fakeredis/_helpers.py:220-222 | The length counts exactly the live items |
| `KeyExpiry.StepRefines` | fakeredis/_helpers.py:194-222 | With time going forward every step, removals of stale keys included, answers as a database purged at every tick, and keeps refining it |
| `KeyExpiry.FoundIff` | fakeredis/_helpers.py:194-208 | An item is found until the clock is past its time |
| `KeyExpiry.RunsAgree` | fakeredis/_helpers.py:194-222 | Over every such run all answers agree with the eager database's |
| `KeyExpiry.TickRefinesIff` | fakeredis/_helpers.py:194-195 | Setting the clock keeps the refinement if and only if it brings no expired item back |
| `KeyExpiry.ClockGoingBackShows` | fakeredis/_helpers.py:194-208 | If the clock goes back, an expired item nobody looked up is there again |
| `FieldExpiry.Hash.ExpireKeys` | fakeredis/model/_hash.py:23-29 | A purge removes the stale fields in the order in which they got their expirations, up to the first that has no value; if there is none, the hash is what an eager one would be and each stale field joins the list of expired fields; otherwise it fails, and the list is as before |
| `FieldExpiry.FieldAfter` | fakeredis/model/_hash.py:36-69 | What setting an expiration, setting, deleting, clearing an expiration and popping do to the field and to every other one; a time that has come removes the field and the answer is 2, a later one is noted and it is 1 |
| `FieldExpiry.FieldAfterUpdate` | fakeredis/model/_hash.py:94-100 | An update gives its fields their new values, drops their expirations if asked to, and leaves every other field alone |
| `FieldExpiry.LiveHas` | fakeredis/model/_hash.py:23-29 | An eagerly purged hash has exactly the fields whose expiration has not passed |
| `FieldExpiry.Hash.PurgeEach` | fakeredis/model/_hash.py:24-28 | The loop removes the fields in order up to the first that has no value |
| `FieldExpiry.PurgeIsLiveIff` | fakeredis/model/_hash.py:23-29 | A purge reaches all stale fields if and only if each has a value, and then it leaves the live fields |
| `FieldExpiry.StaleListedOnce` | fakeredis/model/_hash.py:25 | Each stale field is listed once |
| `FieldExpiry.Hash.PurgeField` | fakeredis/model/_hash.py:26-27 | One field goes, with its expiration |
| `FieldExpiry.Hash.TakeExpiredFields` | fakeredis/model/_hash.py:31-34 | The expired fields are handed out and the list emptied |
| `FieldExpiry.Hash.SetKeyExpireAt` | fakeredis/model/_hash.py:36-44 | A time that has passed removes the field at once, a later one is noted |
| `FieldExpiry.Hash.SetItem` | fakeredis/model/_hash.py:61-64 | Assignment sets the value and drops the expiration, without a purge |
| `FieldExpiry.Hash.DelItem` | fakeredis/model/_hash.py:66-69 | Deletion drops value and expiration |
| `FieldExpiry.Hash.Get` | fakeredis/model/_hash.py:79-81 | A read answers as the eagerly purged hash would, or fails with the purge |
| `FieldExpiry.Hash.Len` | fakeredis/model/_hash.py:71-73 | So does the length |
| `FieldExpiry.Hash.GetAll` | fakeredis/model/_hash.py:102-105 | So does reading all fields |
| `FieldExpiry.Hash.Update` | fakeredis/model/_hash.py:94-100 | An update purges, then sets all values, and drops their expirations when asked; it fails with the purge |
| `FieldExpiry.Hash.Pop` | fakeredis/model/_hash.py:107-109 | A pop answers as the eager hash would, but leaves the expiration behind; it fails with the purge |
| `FieldExpiry.MostOperationsKeepConsistency` | fakeredis/model/_hash.py:23-105 | Every operation but two keeps every field that has an expiration among the fields that have a value |
| `FieldExpiry.ExpireAtKeepsConsistencyIff` | fakeredis/model/_hash.py:36-44 | Noting an expiration keeps that if and only if the field is there or goes at once |
| `FieldExpiry.PopKeepsConsistencyIff` | fakeredis/model/_hash.py:107-109 | A pop keeps it if and only if the field has no expiration |
| `FieldExpiry.PopMakesPurgeFail` | fakeredis/model/_hash.py:23-29 | After a pop that does not, purges fail exactly from the expiration on |
| `FieldExpiry.PopLeadsToFailingPurge` | fakeredis/model/_hash.py:107-109 | A run from a new hash: a field is set, given an expiration and popped, and every purge after the expiration fails |
| `FieldExpiry.ExpireAtAgreesIff` | fakeredis/model/_hash.py:36-44 | A new expiration acts as on the eager hash if and only if it is not given to a stale field; its callers look the field up first |
| `FieldExpiry.PersistAgreesIff` | fakeredis/model/_hash.py:46-47 | So it is with clearing one |
| `FieldExpiry.StepKeepsInv` | fakeredis/model/_hash.py:23-105 | Every proper step keeps the purged lazy hash equal to the eager one and accounts for every expired field |
| `FieldExpiry.LazyHashIsFaithful` | fakeredis/model/_hash.py:23-105 | Over every proper run from a new hash: the purged hash is the eager one, and every expired field is handed out once or was overwritten or deleted before anyone looked |
| `Streams.XStream.Add` | fakeredis/model/_stream.py:601-672 | Every form of id: the answer is the id asked for, said without the code, and the entry is appended with its contents; an id below the last one is refused, a pair of producer and idempotent id sent before adds nothing and gets its id; counters and table follow. The index stays valid if and only if the id does not repeat the last one |
| `Streams.EachPairAddsOnce` | fakeredis/model/_stream.py:636-671 | Whatever else happens to the stream, each pair of producer and idempotent id extends it exactly once if it was ever accepted, and otherwise never |
| `Streams.SentForEver` | fakeredis/model/_stream.py:636-641 | Once a pair was accepted, sending it again is answered with the same id for ever |
| `Streams.CountersCount` | fakeredis/model/_stream.py:664-671 | The counters: one pair for each pair accepted, and at least as many entries |
| `Streams.AddKeepsIndexIff` | fakeredis/model/_stream.py:661-666 | Adding an accepted id keeps list and dictionary in agreement if and only if the id is not the last one over again |
| `Streams.RepeatedIdIsAccepted` | fakeredis/model/_stream.py:661-666 | Two XADDs with the same id are both accepted, and the index is out of order |
| `Streams.ChosenIdIsFresh` | fakeredis/model/_stream.py:642-659 | An id chosen by the server is never the last one over again |
| `Streams.ChosenIsRequested` | fakeredis/model/_stream.py:642-659 | The id chosen is the only one asked for: for * the least id not below the clock's and above the last one stored, for ts-* the next number of that time or 0, and otherwise the one given |
| `Streams.RepeatedGetsFirstId` | fakeredis/model/_stream.py:636-641 | A pair that is sent again adds nothing and gets the id its first accepted addition got |
| `Streams.XStream.FindIndex` | fakeredis/model/_stream.py:696-712 | The bisection divides the ids at the key and finds it exactly when it is there |
| `Streams.FoundIffMember` | fakeredis/model/_stream.py:706-712 | Looking one position beside the bisection, with wrap-around at the front, finds an id if and only if it is there |
| `Streams.XStream.FindArg` | fakeredis/model/_stream.py:714-724 | An id argument finds its entry, and $ the last one |
| `Streams.XStream.RemoveAt` | fakeredis/model/_stream.py:500-504 | One entry leaves list and dictionary, and the highest deleted id is kept |
| `Streams.RemoveKeepsIndex` | fakeredis/model/_stream.py:491-505 | Removing a position keeps the index in order and removes only that id |
| `Streams.XStream.Delete` | fakeredis/model/_stream.py:491-505 | XDEL deletes in order, counts, and stops at the first argument that raises; the highest id deleted is noted |
| `Streams.DeleteOneResult` | fakeredis/model/_stream.py:491-505 | One argument of XDEL: text that is no id raises, and so does $ without entries; $ removes the last entry and an id the one that has it, with its contents, and nothing else goes |
| `Streams.DeleteAllRemovesExactly` | fakeredis/model/_stream.py:491-505 | XDEL of ids removes exactly those that are there and counts them |
| `Streams.DeleteAllKeepsIndex` | fakeredis/model/_stream.py:491-505 | XDEL keeps the index in order whatever its arguments |
| `Streams.XStream.Trim` | fakeredis/model/_stream.py:732-759 | Trimming removes a prefix whose length is determined, with and without LIMIT; other entries keep their fields |
| `Streams.TrimmingIsExact` | fakeredis/model/_stream.py:732-759 | Without LIMIT, trimming by length leaves that many entries, and trimming by id exactly those from the least id on |
| `Streams.TrimmingWithLimit` | fakeredis/model/_stream.py:732-759 | A negative length removes everything and $ all but the last entry; LIMIT 0 is none, a positive one caps what is removed, and with a negative one just that many entries are left |
| `Streams.XStream.TrimStart` | fakeredis/model/_stream.py:748-753 | Where trimming starts to keep, by length or by least id |
| `Streams.XStream.CutFront` | fakeredis/model/_stream.py:756-758 | The first entries leave list and dictionary together |
| `Streams.TrimKeepsIndex` | fakeredis/model/_stream.py:756-758 | Cutting off a prefix keeps the index in order |
| `Streams.XStream.IRange` | fakeredis/model/_stream.py:761-785 | The range by bisection is the filter of all entries by the two ends, inclusive, exclusive or open, reversed on request |
| `Streams.XStream.EndIndex` | fakeredis/model/_stream.py:770-778 | The position an end of a range stands for |
| `Streams.SelectedIsSlice` | fakeredis/model/_stream.py:761-785 | A range of an ascending list is the slice between its positions |
| `Streams.RangesMeet` | fakeredis/model/_stream.py:761-785 | An id divides the list into the range up to it and the one from it on, in or out, which together are the list in order |
| `Streams.WholeRange` | fakeredis/model/_stream.py:770-778 | The range from - to + is everything, and the other way round nothing |
| `Streams.RangesCross` | fakeredis/model/_stream.py:779-785 | A range is what the range from its start and the one to its stop have in common |
| `Streams.XStream.StreamRead` | fakeredis/model/_stream.py:790-797 | A read returns entries after a key, at most as many as asked for |
| `Streams.ReadIsPrefixOfLater` | fakeredis/model/_stream.py:790-797 | What it returns is the first of the ids above the key: all of them, or as many as a count that is not negative says |
| `Streams.ReadWithNegativeCount` | fakeredis/model/_stream.py:790-797 | With a negative count a read returns nothing, unless the end of the slice comes to lie before the beginning of the list: then it counts from the end |
| `Delivery.DeliveredExactlyOnce` | fakeredis/model/_stream.py:179-190 | Over any run of appends above every earlier id, deletions, trims and reads with any counts: the ids given to a group are strictly increasing, and every id still stored between its start and the last one given was given exactly once |
| `Delivery.DeliveredOnceUnlessLate` | fakeredis/model/_stream.py:179-190 | The same over any run in which ids are only above the last one stored, as XADD demands, for every id that was not late: added when it was not above the last one given |
| `Delivery.FreshIdsAreNotLate` | fakeredis/model/_stream.py:661-666 | An id above every earlier one is late only if the group starts above it |
| `Delivery.AddedIdIsGivenIff` | fakeredis/model/_stream.py:661-666 | An id that XADD accepts, and that was not given before, is given by some later run, and by a complete read at once, if and only if it is above the last one given |
| `Delivery.NewlyGivenIsAbove` | fakeredis/model/_stream.py:179-190 | Whatever a run gives anew is above what was given last before it |
| `Delivery.LateIdIsMissed` | fakeredis/model/_stream.py:661-666 | A run from a new group: an entry is read and deleted and an older id added; it is stored, above the group's start, and no later run gives it |
| `Delivery.StepKeepsInv` | fakeredis/model/_stream.py:179-190 | The invariant behind it, for each step |
| `Delivery.RunKeepsInv` | fakeredis/model/_stream.py:179-190 | The invariant over runs, in which what was given only grows |
| `GroupRuns.CountersRightThroughoutIff` | fakeredis/model/_stream.py:120-389 | Over any run of reads with and without NOACK, history reads, acknowledgements, releases with and without FORCE, claims of both kinds, dropped references, creation and deletion of consumers and SETID: the counters are right at every moment if and only if each event was careful when its turn came |
| `GroupRuns.StepKeepsPendingIff` | fakeredis/model/_stream.py:120-389 | Each single event keeps the counters right if and only if it is careful: a read gives no owned entry and a reader with a name none twice, a NOACK read gives nothing or has no name, claims balance, a deleted consumer owns nothing or has no name; every other event always does |
| `GroupRuns.CountersStayRight` | fakeredis/model/_stream.py:161-389 | Over every run from a new group in which reads return ids above the last one given, no claim gives a consumer an entry above it, SETID does not go back behind an owned entry, and NOACK reads, XCLAIM and consumer deletions are careful: each named consumer's counter is the number of entries it owns, and every named owner is a consumer. Releases, forced ones included, acknowledgements, history reads and dropped references are unrestricted |
| `GroupRuns.StepKeepsInv` | fakeredis/model/_stream.py:161-389 | The invariant behind it, for each event, and that such an event is careful |
| `Groups.ReadNewKeepsPendingIff` | fakeredis/model/_stream.py:179-190 | A read of new entries keeps the counters right if and only if nobody with a name owns any of them, and a reader with a name gets none of them twice |
| `Groups.NoAckReadKeepsPendingIff` | fakeredis/model/_stream.py:181-189 | A NOACK read keeps them right if and only if it reads nothing or its reader has no name |
| `Groups.ClaimsKeepPendingIff` | fakeredis/model/_stream.py:319-358 | XCLAIM and XAUTOCLAIM of any ids keep the counters right if and only if no listed entry is taken from another named consumer, and a named claimer gains as many entries as it loses |
| `Groups.ClaimKeepsPendingIff` | fakeredis/model/_stream.py:337-356 | For one id: listed and idle, if and only if it was the claimer's own and is still stored, or was nobody's and is not; not listed, if and only if it is not forced, or not stored, or the claimer has no name |
| `Groups.ClaimedEntriesAt` | fakeredis/model/_stream.py:332-356 | What several claims leave of each id, repetitions in the list included |
| `Groups.ReadNewResult` | fakeredis/model/_stream.py:179-190 | A > read lists each id for the reader, read now and for the first time, unless NOACK was given; its counter grows by the number of ids, and the last id given moves up to the last of them |
| `Groups.ReadAgainResult` | fakeredis/model/_stream.py:165-178 | A read of the history counts one more delivery of each entry read, and changes nothing else but to make the reader a consumer |
| `Groups.AckOneResult` | fakeredis/model/_stream.py:262-265 | An acknowledgement takes the entry off the list and one off its owner's counter, and raises exactly when the owner of a listed entry is no consumer |
| `Groups.AckAllRemoves` | fakeredis/model/_stream.py:255-268 | XACK removes exactly the entries of its ids up to the first that raises |
| `Groups.AckAllCounts` | fakeredis/model/_stream.py:255-268 | It answers with the number of entries removed, and each counter goes down by as many as its consumer owned among them |
| `Groups.NackOneResult` | fakeredis/model/_stream.py:223-250 | A released entry belongs to nobody and was never read; it counts one delivery less, as many, or the most there can be, unless a number is given; with FORCE a stored entry that is not listed is listed so; the owner's counter goes down by one |
| `Groups.ClaimOneResult` | fakeredis/model/_stream.py:380-385 | A claim during a read gives the entry to the claimer, read now and delivered once more, and moves one from the owner's counter to the claimer's |
| `Groups.ClaimedEntryResult` | fakeredis/model/_stream.py:337-356 | XCLAIM of one id: an entry not idle for long enough stays as it is, an idle one comes to the claimer, read at the time given and delivered once more, or leaves the list if it is not stored; FORCE lists a stored one as delivered once |
| `Groups.HistoryIs` | fakeredis/model/_stream.py:170-173 | A history read lists exactly the consumer's own entries above the threshold, in ascending order |
| `Groups.ClaimAllResult` | fakeredis/model/_stream.py:377-385 | Of the candidates of a read those still stored come to the claimer, and no other entry changes |
| `Groups.CandidatesAre` | fakeredis/model/_stream.py:370-373 | The candidates are exactly the entries idle for long enough, longest first and then by id |
| `Groups.DetailsAt` | fakeredis/model/_stream.py:386-387 | Each detail is how long the entry has been idle and how often it was delivered |
| `Groups.DereferencedResult` | fakeredis/model/_stream.py:533-537 | Dropping a reference takes the entry off the list and one off its owner's counter |
| `Groups.ConsumersResult` | fakeredis/model/_stream.py:192-203 | Recomputing the times makes every owner a consumer; deleting a consumer leaves the list and the other counters alone |
| `Groups.ClaimAnswersInOrder` | fakeredis/model/_stream.py:319-358 | Of ids that differ, each that the claim acts on is answered once, in the order of the arguments, among the claimed or the deleted ones |
| `Groups.StreamGroup.Claim` | fakeredis/model/_stream.py:319-358 | The loop over the ids: forced, not idle enough, still stored or deleted from the stream; the ids claimed and the ids deleted are returned in order, repetitions kept |
| `Groups.StreamGroup.ClaimById` | fakeredis/model/_stream.py:337-356 | One round of that loop |
| `Groups.ClaimAnswersIff` | fakeredis/model/_stream.py:337-356 | An id is answered if and only if it was listed and idle, or not listed and forced, and whether its entry is stored decides in which list |
| `Groups.SortList` | fakeredis/model/_stream.py:358 | The ids come out in order, none lost, added or merged |
| `Groups.DelConsumerKeepsPendingIff` | fakeredis/model/_stream.py:133-138 | Deleting a consumer keeps them right if and only if it owns nothing or has no name |
| `Groups.ReadAgainKeepsPending` | fakeredis/model/_stream.py:169-178 | A history read keeps the counters right |
| `Groups.AckKeepsPending` | fakeredis/model/_stream.py:255-268 | So does an acknowledgement |
| `Groups.WithOwnersKeepsPending` | fakeredis/model/_stream.py:192-203 | So does recomputing the consumers' times, which may register one |
| `Groups.NackKeepsPending` | fakeredis/model/_stream.py:205-253 | So does releasing an entry, in every mode |
| `Groups.ClaimKeepsPending` | fakeredis/model/_stream.py:360-389 | So does a claim that is part of a read |
| `Groups.DereferencedKeepsPending` | fakeredis/model/_stream.py:531-537 | So does dropping the reference of a deleted entry |
| `GroupRuns.AckRaisesIff` | fakeredis/model/_stream.py:255-268 | Over any run whatever from a new group, consumer deletions included: acknowledging an entry raises if and only if it is listed and no event has registered its owner since the owner was last deleted, or at all; the owner is then nobody, or a name that was deleted |
| `GroupRuns.ConsumersAreRegistered` | fakeredis/model/_stream.py:127-203 | The consumers are those registered and not deleted since |
| `GroupRuns.NamedOwnerWasDeleted` | fakeredis/model/_stream.py:133-138 | A named owner that is not registered was deleted |
| `GroupRuns.DeletedOwnerAckRaises` | fakeredis/model/_stream.py:133-268 | A run from a new group: read, the consumer deleted, acknowledged, and the acknowledgement raises |
| `GroupRuns.ReleasedAckRaises` | fakeredis/model/_stream.py:205-268 | A run from a new group: read, released, acknowledged, and the acknowledgement raises |
| `GroupRuns.NewGroupGoesWrong` | fakeredis/model/_stream.py:179-358 | In a new group a NOACK read of one entry, or its forced claim, makes a counter wrong |
| `GroupRuns.OwnedEntryGoesWrong` | fakeredis/model/_stream.py:133-358 | After one read, a claim by another consumer, a claim by the same one once the entry is deleted from the stream, and the deletion of the consumer each make a counter wrong |
| `GroupRuns.RereadGoesWrong` | fakeredis/model/_stream.py:120-190 | Two entries are read, SETID goes back, and the second is read again: its reader's counter is wrong |
| `GroupRuns.RepositionedAt` | fakeredis/model/_stream.py:120-125 | SETID moves to the id as many places behind the first one not below the id given, and to the last one if there are too few |
| `GroupRuns.RepeatedIdGoesWrong` | fakeredis/model/_stream.py:179-190 | In a new group, a read of a stream to which one id was added twice makes a counter wrong |
| `GroupRuns.ForcedEntryGoesWrong` | fakeredis/model/_stream.py:179-389 | A run from a new group: XNACK with FORCE lists an entry that nobody was given, a read with CLAIM takes it, the `>` read gives it again, and its reader's counter is wrong |
| `Groups.AckAllKeepsPending` | fakeredis/model/_stream.py:255-268 | XACK keeps the counters right, also when it stops half-way |
| `Groups.AckAllShrinks` | fakeredis/model/_stream.py:255-268 | Acknowledgements leave all other entries, and the set of consumers, as they were |
| `Groups.ClaimAllKeepsPending` | fakeredis/model/_stream.py:360-389 | Claiming several entries keeps the counters right |
| `Groups.SortIds` | fakeredis/model/_stream.py:370-373 | The ids come out sorted by the given order, none lost or added |
| `Groups.ClaimOrderIsOrder` | fakeredis/model/_stream.py:370-373 | Longest idle first, then by id, is a strict order |
| `Groups.StreamGroup.AddConsumer` | fakeredis/model/_stream.py:127-131 | A consumer is registered with nothing pending, once; 1 when it is new |
| `Groups.StreamGroup.DeleteConsumer` | fakeredis/model/_stream.py:133-138 | The consumer goes, its entries stay in the list; the answer is its counter, which is the number of entries it owned as long as counters are right |
| `Groups.StreamGroup.Enlist` | fakeredis/model/_stream.py:182-184 | The entries read become pending entries of the consumer |
| `Groups.StreamGroup.GroupRead` | fakeredis/model/_stream.py:179-190 | A read hands out the ids after the last delivered one and moves it |
| `Groups.StreamGroup.GroupHistory` | fakeredis/model/_stream.py:169-178 | A history read returns the consumer's own pending ids above a threshold, ascending, cut by the count, each counted as delivered once more |
| `Groups.StreamGroup.Redeliver` | fakeredis/model/_stream.py:173-177 | Each entry of a history read counts one more delivery |
| `Groups.StreamGroup.AckEntry` | fakeredis/model/_stream.py:255-268 | One acknowledgement removes the entry and counts its owner down |
| `Groups.StreamGroup.Ack` | fakeredis/model/_stream.py:255-268 | XACK acknowledges in order, counts what was there, and keeps the work done when it raises |
| `Groups.StreamGroup.NackEntry` | fakeredis/model/_stream.py:205-253 | A released entry loses its owner and its delivery count changes by mode |
| `Groups.StreamGroup.ClaimForRead` | fakeredis/model/_stream.py:360-389 | The idle entries of everybody change hands, longest idle first, cut by the count, deleted ones skipped; each comes with the idle time and the delivery count it had |
| `Groups.StreamGroup.ClaimCandidates` | fakeredis/model/_stream.py:376-389 | The candidates are claimed in order, those still stored returned with their details as they were |
| `Groups.StreamGroup.ClaimEntry` | fakeredis/model/_stream.py:380-385 | One entry changes hands and both counters follow |
| `Groups.StreamGroup.DropReference` | fakeredis/model/_stream.py:533-537 | A deleted entry leaves the pending list and its owner's counter follows |
| `Deletions.DeletedExIsRight` | fakeredis/model/_stream.py:507-541 | XDELEX of one id keeps the index in order and right counters right; 1 means that exactly this entry is gone, in DELREF mode with every reference to it and in ACKED mode when there was none; any other answer, that nothing has changed |
| `Deletions.DeletedAllExIsRight` | fakeredis/model/_stream.py:507-541 | XDELEX of several ids keeps the index in order and right counters right, and answers once for each |
| `Deletions.DeletedExAnswers` | fakeredis/model/_stream.py:507-541 | Which answer XDELEX gives: it raises for text that is no id and for $ without entries, -1 for an id not there, 2 in ACKED mode while a group has the entry pending, else 1 |
| `Deletions.AckDeletedAnswers` | fakeredis/model/_stream.py:543-559 | Which answers XACKDEL gives when the entry is not stored or not pending in the group |
| `Deletions.DeletedAllExRemovesExactly` | fakeredis/model/_stream.py:507-541 | Of several ids that are written out, exactly those answered with 1 are gone |
| `Deletions.AckDeletedIsRight` | fakeredis/model/_stream.py:543-579 | XACKDEL of one id, whatever the state of the groups, keeps the index in order and right counters right; 1 means that the entry is gone from the stream, in DELREF mode from every group, and acknowledged in its group only if the id was written out; 2 that it stays stored, as some group still refers to it, and was acknowledged in its group exactly if the id was written out; -1 and an error that nothing has changed |
| `Deletions.AckDeletedAllIsRight` | fakeredis/model/_stream.py:543-579 | XACKDEL of several ids keeps the index in order and right counters right, also when it stops half-way, with one answer for each id reached |
| `Deletions.AckDeletedAllRemovesExactly` | fakeredis/model/_stream.py:543-579 | Of ids that are written out, exactly those answered with 1 are gone from the stream, and exactly those answered with 1 or 2 from the group's list |
| `Deletions.OneIsAcked` | fakeredis/model/_stream.py:543-579 | The same for one id, and what it leaves alone |
| `Deletions.DollarIsNotAcknowledged` | fakeredis/model/_stream.py:543-579 | A run: the only entry is read, XACKDEL with $ and KEEPREF deletes it, and it stays pending |
| `Deletions.AckDeletedPendingIsRight` | fakeredis/model/_stream.py:555-577 | The same for an entry that is stored and pending in the group |
| `Deletions.AckedInIsRight` | fakeredis/model/_stream.py:255-268 | Acknowledging an argument: an id leaves the group's list, and $ is skipped |
| `Deletions.DroppedIsRight` | fakeredis/model/_stream.py:527-537 | The entry leaves the stream alone, or with every reference to it |
| `Deletions.IsReferenced` | fakeredis/model/_stream.py:523 | An entry is referenced if and only if some group has it pending |
| `Deletions.DropReferences` | fakeredis/model/_stream.py:531-537 | Every group drops the reference |
| `Deletions.DeleteStored` | fakeredis/model/_stream.py:527-537 | The entry leaves the stream, and the groups' lists when the mode says so |
| `Deletions.KeepOrDelete` | fakeredis/model/_stream.py:522-539 | In ACKED mode an entry that a group refers to stays |
| `Deletions.Locate` | fakeredis/model/_stream.py:513-520 | The argument denotes a stored entry, or the answer is settled at once |
| `Deletions.DeleteExOne` | fakeredis/model/_stream.py:507-541 | XDELEX of one id: not found, kept because referenced, or deleted with its references as the mode says |
| `Deletions.DeleteEx` | fakeredis/model/_stream.py:507-541 | The loop deletes in order, with one answer for each id, up to the first argument that raises |
| `Deletions.AckIn` | fakeredis/model/_stream.py:255-268 | The acknowledgement of one argument in one of the groups leaves the other groups alone |
| `Deletions.AckDeletePending` | fakeredis/model/_stream.py:555-577 | The acknowledgement and then the deletion, as the mode says |
| `Deletions.AckDelete` | fakeredis/model/_stream.py:543-579 | The loop acknowledges and deletes in order, with one answer for each id, up to the first that raises |
| `Deletions.AckDeleteOne` | fakeredis/model/_stream.py:543-579 | XACKDEL of one id changes stream and groups, all of them, as the specification says |
| `Transactions.Server.RunUnwatch` | fakeredis/commands_mixins/transactions_mixin.py:75-78 | UNWATCH leaves the session with no watches and not dirty, and contents alone |
| `Transactions.Server.Abandon` | fakeredis/commands_mixins/transactions_mixin.py:35-37 | Transaction, failure flag and watches go together |
| `Transactions.Server.ClearAll` | fakeredis/commands_mixins/server_mixin.py:33-39 | All databases are emptied and exactly the stored keys touched |
| `Blocking.Database.RunPass` | fakeredis/commands_mixins/list_mixin.py:64-67 | The pass of the operation the client is in |
| `Blocking.RetryKeepsInv` | fakeredis/_basefakesocket.py:478-486 | A retry keeps the invariant |
| `FieldExpiry.Hash.ClearKeyExpireAt` | fakeredis/model/_hash.py:46-47 | The expiration goes; the answer says whether there was one |
| `FieldExpiry.RunKeepsInv` | fakeredis/model/_hash.py:23-105 | The invariant over runs |
| `KeyExpiry.Database.SetItem` | fakeredis/_helpers.py:210-211 | The item replaces whatever was stored, expired or not |
| `Streams.XStream.DeleteItem` | fakeredis/model/_stream.py:498-504 | One argument of XDEL: at most one entry leaves, and text that is no id raises |
| `ZSet.ZSet.LexPositions` | fakeredis/model/_zset.py:66-98 | The two positions delimit exactly the pairs between the endpoints |
| `GroupRuns.RunKeepsInv` | fakeredis/model/_stream.py:161-389 | The invariant over runs |
| `Geohash.NarrowBox` | fakeredis/geo/geohash.py:71-76 | One step halves the interval whose turn it is and sets the bit of the half taken |
| `Geohash.DecodeBit` | fakeredis/geo/geohash.py:23-47 | One bit halves an interval and its margin |
| `Scan.SetBit` | fakeredis/_basefakesocket.py:74 | Setting a bit above which all are still to come adds its power of two |

## Left out

- Lists that two keys hold after COPY in `Blocking.dfy`, where each key has its own list.
- One database in `Blocking.dfy`: sleepers and lists of different databases do not interact, and SWAPDB, which exchanges contents without notifying, is not modelled there.
- LMPOP, BLMPOP and BLMOVE: they pop in place without committing, or keep a list item across the wait.
- Blocking.Database.PopValues: a pop without a count answers with the element itself, here with a list of that one.
- Key time-to-live in `Blocking.dfy`: an expiring list changes the database without a step.
- `Blocking.Database.Retry` takes the timing of notifications as given: the asynchronous variant of the wait is not modelled, and a time-out may happen at any moment.
- The other commands that write lists (LSET, LREM, LTRIM, LINSERT, SORT with STORE) appear in `Blocking.dfy` as one step that replaces a value.
- Transactions.Server.ClearAll: the databases are a fixed list rather than created on demand.
- Transactions.Server.Connect: closing a connection, RESET, weak references, CLIENT KILL, access control and scripts are not modelled.
- Transactions.Server.RunData: an item written back with an empty value is one with none; the expiry of keys and of hash fields, which changes a watched key without a touch, and keyspace notifications are not modelled.
- Reporting.MoveReportsIff and Reporting.CopySharesObject: an item's expiration time, which MOVE and COPY carry along, and the clock, which SWAPDB exchanges, are not modelled.
- Reporting.UnreportedIff: the commands of the probabilistic, vector and time-series types that it names are not modelled one by one; consumer groups, whose changes are never reported, are not part of a stream's value there.
- Reporting.XaddReportsIff: idempotent producers and NOMKSTREAM are not part of that command.
- Reporting.LmpopReportsIff and its like: of a command's reply only success, failure and counts are given.
- Reporting.HexpireReportsIff: which fields NX, XX, GT and LT admit, and whether the time has passed, are parameters; a field's expiration time is not part of the hash's value there.
- Error texts, and reply conversion for protocol versions 2 and 3.
- Resp.ParseIntOfDecimal: the limit on the number of digits that int() accepts, non-ASCII digits, and inline commands are not modelled.
- Lcs.LongestCommonSubsequence: the list of matches and the final encoding of the result are not modelled.
- BITPOS, BITCOUNT, BITOP, and the loop of BITFIELD over its sub-commands.
- Geohash.GeoEncode and Geohash.GeoDecode: coordinates are reals, so rounding is not modelled.
- Scan.ScanOnce: MATCH and TYPE are any predicate on keys; how a pattern or a type decides is not part of the call.
- ZSet scores are reals with two infinities; NaN is not modelled.
- Streams.XStream.Add: the time of an automatic id, and the id that IDMPAUTO makes of the fields, are parameters; XIDMPRECORD, which notes a pair for an entry that is there, is not modelled.
- Groups.StreamGroup.Claim: the selection of entries by XAUTOCLAIM is not modelled.
- GroupRuns.RereadGoesWrong: SETID is a function on the group's state, for a stream that is not empty.
- Streams.XStream: once an id was added twice the index is out of order; what the other operations do then is not modelled.
- Delivery.AddedIdIsGivenIff: SETID, after which a group is given earlier ids, is not among the events of these runs.
- Groups.StreamGroup.GroupRead: the read counters and the times of last attempt and success are not modelled; an argument that is no id is dropped before XACK sees it.
- Sorted lists are sequences with a bisection of their own instead of the libraries the source uses, and regular expressions are lists of nodes instead of text.
- Lua scripts, JSON paths, vector sets, probabilistic filters, t-digest, time series, random commands, DUMP and RESTORE, and the network transport.
