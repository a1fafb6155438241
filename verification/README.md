# tailkitd: a verified model of its streams, durable state and clever loops

tailkitd is a node agent. Behind its HTTP handlers sit a handful of stateful algorithms whose promises span many
calls, many connections or many restarts. This project models them in Dafny and proves those promises for all
inputs and all runs.

* **Streams a client rebuilds.** `JobEvents`, `SseWire`, `JobStream` and `JobResume` follow a job's output from the
  record to the frames on the wire, through a reader of event streams (WHATWG HTML Living Standard, sections 9.2.4
  to 9.2.6), to a client that is cut off anywhere and reconnects with its last event ID; `JobHistory` joins the two
  ends, from the job table and the handler's response to the client's log. `PortStream` replays port snapshots and
  deltas. `LogLines` puts the chunked output of a container's two streams back into lines. `VarStore` renders
  variables as shell assignments and reads them back under the quote removal rules of the POSIX.1-2017 Shell Command
  Language (sections 2.2.1 and 2.2.2).
* **Durable state.** `Disk` models the atomic write with a failure or a death of the process at any call;
  `InviteStore`, `Epoch` and `AdminTransfer` are built on its contract. `PowerLoss` is the same write on a disk that
  keeps only what was synced, and `PowerRuns` runs the claims and the epoch on such a disk. `Election` is the
  bootstrap election over a whole fleet, `ServiceRegistry` the debounced directory cache step by step, with its loop's
  and its handlers' reloads interleaved, `JobStore` the job table with its evictor.
* **Fast forms against simple ones.** `ToolVersion` (padded string comparison against numbers), `PortIndex` (a map
  index against a scan, kernel hexadecimal against bytes), `InboxPath` (string prefixes against path components),
  `AccessRegistry` (a loop over a sorted list against a rule on sets).
* **Shared.** `Order` (Go's string order and sorting), `Text` and `Decimal` (the string and number helpers of Go's
  library), `Pattern` (what a text must look like to match a regular expression), `Ports` (the port record and its two
  orders), `Wrappers` (an optional value).

Code that changes things in place is a class or a method with loops, proved against a specification; the
specification's own properties are lemmas beside it. Where a specification rests on a small definition, such as which
statuses end a job or which address is preferred, a lemma says what it means in other terms, so that the definition is
not its own only witness. Protocols are step machines over lists of events; the methods'
contracts state the same steps.

## What turned out not to hold as promised

The code is modelled as it is. Where a promise fails, a lemma shows the failure and another gives the exact
condition under which it holds.

* Replay of missed job events (`docs/api.md:68`). "Job not found" is sent as an event and takes the next id. If the
  record is evicted while the job still runs and the result is stored late, that client can never receive the event
  whose id was taken (`JobResume.EvictionLosesAnEvent`, `JobResume.LostForGood`). A client that reached the end of
  the job has exactly its events if and only if no connection was told that the job is missing before all its
  events were sent (`JobHistory.RecordReplayIff`, `JobResume.CompleteIffNoneTaken`). A compose
  build may run for thirty minutes and records live for five; a job that ends within five minutes of being accepted is
  replayed in full to a client that is done within five more (`JobHistory.StoredJobReplays`).
* A negative `Last-Event-ID` is accepted and shifts every id; ids are positions if and only if the resume point is
  not negative (`JobResume.IdIsPositionIff`).
* A heartbeat before the first event of a reconnected stream makes a client that starts with an empty last event ID
  buffer, as section 9.2.6 says, forget its id (`JobResume.HeartbeatFirstForgetsId`, `SseWire.BeatKeepsIdIff`). A
  connection puts a client out of step if and only if that happened to a client that had events
  (`JobResume.InStepAfterIff`).
* Output that consists of one blank line yields no line event, and a line that ends in a carriage return before a bare
  line feed loses it, as that reads as CR LF. Lines come back as they were written, carriage returns inside them and
  an unended last line included, if and only if neither happens (`JobEvents.SplitLinesInvertsIff`). Read with its own
  line endings, any text at all splits into its lines unless it is one blank line (`JobEvents.EveryTextSplits`).
* Transferring the admin role to oneself leaves no admin, and a lost answer to an accepted promotion leaves two.
  `AdminTransfer.OneAdminIff` is exact over every failed write, lost message and death on either side.
* Two overlapping mutations can pass the epoch check with one epoch (`Epoch.SameEpochIffNoSuccessBetween`,
  `Epoch.OverlapSharesEpoch`).
* Failed persists let epochs come back: over any run, a restart comes back at or below an epoch the file had not
  passed at the start if and only if no increment past that epoch was durable (`Epoch.RestartReopensEpochIff`,
  `Epoch.LifeReopensEpochIff`).
* `AtomicWrite` ignores an error of its directory sync. If the power fails then, a claim answered 200 can be claimed
  again and a returned epoch returned again; answered claims stay and returned epochs rise, whatever the power does,
  if and only if no write was answered on such an error (`PowerRuns.ClaimsUnbrokenIff`, `PowerRuns.EpochsRiseIff`,
  `PowerRuns.UnsyncedClaimedTwice`, `PowerRuns.UnsyncedEpochReturns`). The variable store syncs nothing at all, so a
  loss of power can show a scope with anything (`PowerLoss.Machine.WriteScope`).
* The largest 64-bit epoch wraps. An increment there breaks the order of memory, file and returned values, except when
  what it leaves in file and answers is no larger than the smallest value (`Epoch.StepMonotoneIff` is exact).
* Two hosts whose names sanitize to one daemon name can both elect themselves, as can a node whose name is
  overridden by `TAILKITD_HOSTNAME`. With complete views and no admin answering, two nodes of any fleet both do if and
  only if no other node's daemon name is smaller than what either goes by: for nodes under their own names, if both
  hold the least one (`Election.BothElectedIff`).
* A reload that fails is not retried: the snapshot stays as it was until the next relevant event or handler's reload
  (`ServiceRegistry.NeverRetried`, `ServiceRegistry.FailedReloadLeavesStale`). It is right without a listing having
  succeeded if and only if the directory defines again what it defined before
  (`ServiceRegistry.CurrentWithoutListingIff`, `ServiceRegistry.FailedReloadIff`). Nor is a file retried that could not
  be read: the reload is right if and only if the other files define the same (`ServiceRegistry.SkippedReadIff`).
* A handler's reload can publish late. A run stays consistent if and only if every handler in it publishes while a
  reload is owed or under way, or publishes what the directory defines, or publishes a stale read while a failure is
  still not made up for (`ServiceRegistry.ConsistentThroughoutIff`). Whatever the order in which the loop caught up
  with a change, a handler that read before it leaves a stale snapshot with nothing owed if and only if the change
  mattered (`ServiceRegistry.LateHandlerPublishIff`).
* A scope file that holds the JSON value null makes setting or deleting a variable panic (`VarStore.Store.Set`).
* Scopes that requests can name share a file if and only if they are one scope, unless the base directory is the root
  (`VarStore.ScopesKeepApartIff`, `VarStore.RequestsKeepApartIff`); the daemon's is `/etc/tailkitd/vars`. Only a direct
  caller of the package can pass a project with a slash, and so name one file in two ways
  (`VarStore.ClimbingScopesMeet`).
* With a tool directory that resolves to no component, such as `/`, every child path is refused
  (`InboxPath.RootAcceptsOnlyItself`).
* A timestamped log line whose text starts with a space loses that space (`LogLines.StampedTextKeptIff`).
* The comment on `versionAtLeast` asks for components of equal width; the code compares any widths correctly, and
  the model follows the code (`ToolVersion.AtLeastIsNumeric`).
* `AtomicWrite` would delete its target if the temporary name were the target's name (`Disk.Disk.AtomicWrite`);
  `os.CreateTemp` only picks names that are not taken, so this needs a target that does not exist yet and is named
  like a temporary file. No caller in the daemon writes to such a target; only a direct caller of the package can.

## Model

| member | source | states |
|---|---|---|
| `JobEvents.BuildJobEvents` | internal/exec/handlers.go:123-182 | the appending loops build exactly the specified list of a record's events, and it ends as the status has it: completed, failed (of a cancelled job too), or not at all |
| `JobEvents.EventsCarryOutput` | internal/exec/handlers.go:145-166 | the stdout events carry the lines of stdout, and the stderr events those of stderr, each complete and in order |
| `JobEvents.EventsInOrderAndLabelled` | internal/exec/handlers.go:123-182 | statuses come before stdout, stdout before stderr, the closing event last; every event names its job and its own stream |
| `JobEvents.EventsCarryStatusAndEnd` | internal/exec/handlers.go:124-181 | acceptance comes first, then any later status; the last event closes a completed job as completed and a failed or cancelled one as failed, with exit code and error, and no other event closes a job; and how many events there are |
| `JobEvents.EventsNamedAsDocumented` | docs/api.md:50-56 | the five documented event names, by what the events carry |
| `JobEvents.AcceptedIsPrefix` | internal/exec/handlers.go:123-182 | what an accepted record sends is a beginning of what any later record of the job sends |
| `JobEvents.SplitLinesInvertsIff` | internal/exec/handlers.go:184-191 | lines come back as they were written, however each was ended and whatever they hold, if and only if no line before a bare line feed ends in a carriage return and the text is not one blank line |
| `JobEvents.SplitLinesOfWritten` | internal/exec/handlers.go:184-191 | what splitting makes of any lines and endings, those it changes included |
| `JobEvents.EveryTextIsWritten` | internal/exec/handlers.go:184-191 | every text is such lines, with no carriage return left before a bare line feed |
| `JobEvents.EveryTextSplits` | internal/exec/handlers.go:184-191 | any text splits into its own lines, if and only if it is not one blank line |
| `SseWire.Writer.Write` | internal/sse/writer.go:58-85 | a call after the request is done does nothing; any other takes the next id and asks for one more frame, even after a print has broken; it reports no error exactly when the response is then the whole wire text of all that was asked for, and the response is always a beginning of that |
| `SseWire.Writer.Heartbeat` | internal/sse/writer.go:87-108 | the same for a comment, which takes no id |
| `SseWire.Writer.SetSequence` | internal/sse/writer.go:114-116 | numbering goes on from the given id |
| `SseWire.Writer.Print` | internal/sse/writer.go:80-84 | a print leaves the whole text or as much as there is room for, and succeeds exactly when nothing is missing from the response |
| `SseWire.FeedItem` | internal/sse/writer.go:80 | reading one whole frame dispatches exactly its name, payload and id, and leaves the reader ready for the next |
| `SseWire.FeedWire` | internal/sse/writer.go:58-108 | reading any whole response leaves the reader where its items, taken one by one, leave it |
| `SseWire.CutAnywhere` | internal/sse/writer.go:58-108 | reading a response cut at any character dispatches exactly the frames that arrived whole, and leaves their id |
| `SseWire.AfterAllDelivered` | internal/sse/writer.go:58-108 | heartbeats mixed in anywhere change no event and, once one was read, no id |
| `SseWire.ResponseDecodes` | internal/sse/writer.go:58-108 | a new reader of the whole response has exactly the sent names, ids and payloads; of any beginning of it, a beginning of them |
| `SseWire.BeatKeepsIdIff` | internal/sse/writer.go:104 | a heartbeat leaves the last event ID alone exactly when the ID buffer already holds it |
| `SseWire.ResumeReadsBackId` | internal/sse/writer.go:118-129 | the header a client makes of an event's id resumes at that id |
| `SseWire.ResumeFromIff` | internal/sse/writer.go:118-129 | any header that is not a 64-bit number resumes at 0 |
| `SseWire.ItemTextLines` | docs/api.md:86-108 | the lines of a frame and of a heartbeat, as documented |
| `JobStream.SendUnsent` | internal/exec/handlers.go:85-94 | the loop over a record's events sends exactly those after the resume point, under consecutive ids and with heartbeats anywhere among them, or breaks off at one of them |
| `JobStream.SendOne` | internal/exec/handlers.go:85-94 | one send asks for one frame, unless the request is done; the connection's failure comes out as the error it was |
| `JobStream.Beats` | internal/sse/handler.go:29-34 | heartbeats from the other goroutine leave events and counter alone |
| `JobStream.PollOnce` | internal/exec/handlers.go:79-98 | one round of polling: a failed send ends the stream within its events, a missing job at once, a completed, failed or cancelled one after its events, and any other goes on from the new position |
| `JobStream.StreamJob` | internal/exec/handlers.go:74-106 | over any lookups and with heartbeats anywhere the loop sends exactly the specified run, or a beginning of it when a send fails; it ends with the first lookup that misses the job or finds it completed, failed or cancelled, and the counter ends equal to the position |
| `JobStream.StreamEndsAsLookedUp` | internal/exec/handlers.go:74-106 | which lookup ends the stream and how, for any lookups |
| `JobStream.MissingJobOnTheWire` | internal/sse/handler.go:35-39 | the bytes a client of a missing job reads |
| `JobStream.RunCounts` | internal/exec/handlers.go:74-106 | the position after a run is the resume point plus the events sent, so the position and the writer's counter never part |
| `JobStream.ReportMissing` | internal/sse/handler.go:35-39 | the error of a missing job is one more frame under the next id, as far as the connection carries it |
| `JobStream.ReportBroken` | internal/sse/handler.go:35-39 | the error reported after a broken print takes an id but changes nothing on the wire |
| `JobStream.ServeFrom` | internal/sse/handler.go:12-45 | the response is a beginning of the run's frames and, exactly when the job was missing, an error frame, heartbeats among them; all of that when neither bytes nor calls ran out |
| `JobStream.HandleJobStream` | internal/exec/handlers.go:66-72 | the same from the resume point the request's header names |
| `JobResume.SessionKeepsStep` | internal/exec/handlers.go:66-106 | a connection cut anywhere leaves the client with its old log extended, every entry fitting its position, and a last id equal to the log's length |
| `JobResume.InStepAfterIff` | internal/sse/writer.go:87-108 | exactly when a connection leaves the client in step: unless only heartbeats arrived, the buffer started empty and the client had events |
| `JobResume.HistoryKeepsStep` | docs/api.md:100-108 | so does any number of connections |
| `JobResume.FinishedSessionCompletes` | internal/exec/handlers.go:96-98 | an uncut connection that reaches the end of the job leaves no event out |
| `JobResume.FoundHistoryStaysWithin` | docs/api.md:100-108 | while the job is always found the log is the job's first events under ids 1, 2, and so on |
| `JobResume.ResumeExactlyOnce` | docs/api.md:68-108 | for any list of events that the looked-up ones begin: after any number of disconnects at any byte the client has its first events, once each and in order, and all of them once its last connection ran to the end |
| `JobResume.EndsUncutCompletes` | internal/exec/handlers.go:74-106 | a history whose last connection ran uncut to the end covers every event of the final record |
| `JobResume.CompleteIffNoneTaken` | docs/api.md:68 | a new client that reached the end of the job has exactly its events if and only if no connection's run missed the job before all its events were sent, with the error arriving whole |
| `JobResume.SessionErrorIff` | internal/sse/handler.go:35-39 | one connection puts an error into one of the job's positions exactly when its run ended "not found" before the last event and the error arrived |
| `JobResume.HistoryErrorIff` | internal/sse/handler.go:35-39 | so does a history exactly when one of its connections did |
| `JobResume.LostForGood` | docs/api.md:68 | once an error took the id of a job event, no later history is complete |
| `JobResume.MissingJobTakesNextId` | internal/sse/handler.go:35-39 | the error of a missing job gets the id of the next job event |
| `JobResume.EvictionLosesAnEvent` | internal/exec/jobs.go:62-73 | a concrete run: accepted, evicted while running, stored late; one event is lost |
| `JobResume.HeartbeatFirstForgetsId` | internal/sse/writer.go:104 | a stream that opens with a heartbeat makes the client forget its id exactly when its buffer starts empty and it had one |
| `JobResume.IdIsPositionIff` | internal/sse/writer.go:118-129 | an event's id is its position in the job exactly when the resume point is not negative |
| `JobHistory.LookupsFollow` | internal/exec/handlers.go:123-182 | lookups that find nothing, the accepted record or the final one show beginnings of the final record's events, and all of them once the job ended |
| `JobHistory.Reconnect` | internal/exec/handlers.go:66-106 | a response of handleJobStream, cut where it ends, is one connection of a history, and the client is what reading it makes of it |
| `JobHistory.ConnectionsAreHistory` | internal/exec/handlers.go:66-106 | connections whose lookups follow the final record's events are a history of that job |
| `JobHistory.RecordReplayIff` | docs/api.md:68 | over records, evictions included: the client stays in step with the final record's events, and once at their end it has exactly them if and only if no connection was told that the job is missing before all were sent |
| `JobHistory.LookupWithinTTL` | internal/exec/jobs.go:13-121 | within five minutes of acceptance and of the end, every lookup finds the accepted record until the job ended and the final one from then on |
| `JobHistory.StoredJobReplays` | docs/api.md:68-108 | end to end over any run of the job table within those times: the client has the first events of the stored record, once each, in order, under 1, 2 and so on, and all of them once its last connection ran uncut to the end |
| `JobStore.Store.NewJob` | internal/exec/jobs.go:48-60 | an accepted record, stored now, and nothing else changed |
| `JobStore.Store.StoreResult` | internal/exec/jobs.go:62-73 | the result replaces the record, or is stored although the job was evicted |
| `JobStore.Store.GetResult` | internal/exec/jobs.go:78-86 | the stored result, or none if the job is not in the table |
| `JobStore.Store.Evict` | internal/exec/jobs.go:107-121 | deleting while walking the map in any order leaves exactly the unexpired records |
| `JobStore.FoundIff` | internal/exec/jobs.go:48-121 | over any run, a lookup gives the last thing stored under the id if and only if no pass came more than five minutes after it |
| `JobStore.FoundExactly` | internal/exec/jobs.go:48-121 | so for any id at all, never stored ones included |
| `JobStore.FoundWithinTTL` | internal/exec/jobs.go:13-14 | a record is found at every moment up to 300,000,000,000 nanoseconds, five minutes, after it was stored |
| `JobStore.GoneAfterTTL` | internal/exec/jobs.go:94-121 | with a pass in every thirty seconds it is gone five and a half minutes after |
| `JobStore.LookupsAgree` | internal/exec/jobs.go:62-86 | once the last result is stored, later lookups return it or nothing, and what is gone stays gone |
| `Disk.Disk.FillTemp` | internal/utils/atomic_write.go:11-32 | up to the rename only the temporary file changes |
| `Disk.Disk.AtomicWrite` | internal/utils/atomic_write.go:8-42 | an error leaves the target as it was, success leaves exactly the new file and no temporary one, death leaves old or new; no other path changes |
| `Disk.AtomicEffectSettles` | internal/utils/atomic_write.go:8-42 | the outcome decides the target's content and nothing else's |
| `Disk.RunHoldsLastEffect` | internal/utils/atomic_write.go:8-42 | over any run of writes, failures, deaths and leftovers a path holds the last write to it that took effect |
| `PowerLoss.Machine.Fill` | internal/utils/atomic_write.go:11-32 | on a disk that keeps only what was synced: up to the rename only the temporary file changes, and success leaves its content synced |
| `PowerLoss.Machine.AtomicWrite` | internal/utils/atomic_write.go:8-42 | the power failing after any number of calls, what is seen and what a loss of power can show of the target are as the write ended: unchanged after an error, only the new data after a success whose directory sync worked, old or new when cut off after the rename or when that sync failed |
| `PowerLoss.Machine.WriteScope` | internal/vars/store.go:297-333 | the same for a write that syncs nothing: up to the rename it does no harm, but once its data is seen a loss of power can show anything in its place |
| `PowerLoss.GuardedHolds` | internal/utils/atomic_write.go:8-42 | the invariant the steps keep: whichever pending directory changes reached the disk, the path shows a possible content |
| `PowerLoss.Machine.Reboot` | internal/utils/atomic_write.go:8-42 | after a loss of power one of the possible contents is found, and is then certain |
| `PowerLoss.UnsyncedCanBeLost` | internal/utils/atomic_write.go:36-39 | directory changes that were not synced can all be lost: what was certain before comes back |
| `PowerRuns.Persist` | internal/utils/atomic_write.go:8-42 | a persist by AtomicWrite is one step of the runs below, on what the file means |
| `PowerRuns.ReadAfterWrite` | internal/utils/atomic_write.go:8-42 | reading a file's possible contents commutes with writing it |
| `PowerRuns.StepUnbrokenIff` | internal/invite/store.go:76-113 | a step keeps every answered claim in all that a loss of power can bring back, exactly when it does not answer a claim whose directory sync failed |
| `PowerRuns.ClaimsUnbrokenIff` | internal/invite/store.go:76-113 | so does a run at all times, if and only if it has no such step |
| `PowerRuns.ClaimedOnceDespitePower` | internal/invite/store.go:76-113 | then no token is claimed successfully twice, whatever fails, dies or loses power |
| `PowerRuns.UnsyncedClaimedTwice` | internal/utils/atomic_write.go:36-39 | and after any such step a loss of power can have the token claimed again |
| `PowerRuns.StepRisingIff` | internal/state/epoch.go:65-76 | below the wrap a step keeps the returned epochs rising and safe from a loss of power exactly when it does not return one whose directory sync failed |
| `PowerRuns.EpochsRiseIff` | internal/state/epoch.go:65-76 | so does a run at all times, if and only if it has no such step |
| `PowerRuns.UnsyncedEpochReturns` | internal/utils/atomic_write.go:36-39 | and after any such step that epoch, or an older one, can be returned again |
| `InviteStore.PersistThenLoad` | internal/invite/store.go:46-113 | persisting and loading give back the same claims, in whatever order they were listed |
| `InviteStore.LoadListIff` | internal/invite/store.go:46-67 | of each token the last record is loaded, and nothing else |
| `InviteStore.Store.Open` | internal/invite/store.go:31-44 | a store starts with the claims of its file, none if there is no file; a file that cannot be read or parsed is an error |
| `InviteStore.Store.Load` | internal/invite/store.go:46-67 | the loop fills the map with what the file durably holds, or fails on a file that cannot be read or parsed |
| `InviteStore.Store.IsClaimed` | internal/invite/store.go:69-74 | whether the token is claimed in memory |
| `InviteStore.Store.ListClaims` | internal/invite/store.go:100-105 | the written list shows every claim and nothing else |
| `InviteStore.Store.PersistLocked` | internal/invite/store.go:100-113 | the durable claims become those in memory, or stay, as the write ended |
| `InviteStore.Store.MarkClaimed` | internal/invite/store.go:76-98 | refused exactly when already claimed; else in memory at once, and durable exactly as the write ended: one step of the claim machine |
| `InviteStore.Store.ServeHTTP` | internal/api/invites.go:20-117 | each status exactly under its own condition: 405, 400, 500 and 401 in that order, 403 for another caller, 410 for an expired or claimed token, 409 when the persist failed, 200 for the grantee of an unexpired, unclaimed token that was persisted; a refused request changes nothing; an admissible one is a check and a claim of the machine |
| `InviteStore.StepKeepsSafe` | internal/api/invites.go:79-101 | each step keeps: answered implies durable, durable implies in memory, no two answers share a token |
| `InviteStore.ClaimedAtMostOnce` | internal/api/invites.go:79-101 | over any interleaving, failed persist, death and restart no token is claimed successfully twice |
| `InviteStore.SecondOfTwoLoses` | internal/api/invites.go:79-101 | of two requests that both passed the check, only the first to claim wins |
| `InviteStore.FailedPersistBlocksUntilRestart` | internal/invite/store.go:84-97 | a claim that was not persisted blocks its token until the next restart |
| `Epoch.Counter.Open` | internal/state/epoch.go:22-45 | missing counts as 0; a file that cannot be read or holds no number is an error; else the stored number |
| `Epoch.Counter.Validate` | internal/state/epoch.go:53-63 | passes exactly the current value; smaller is stale, larger is from the future |
| `Epoch.Counter.Increment` | internal/state/epoch.go:65-76 | memory moves on; the new value is returned exactly when it is durable, as a line of its own with mode 0600: one step of the epoch machine |
| `Epoch.RequireAdminKey` | internal/api/admin.go:102-146 | the handler runs exactly for a request with the key and the grant and, if it is a POST, PUT, PATCH or DELETE and there is an epoch, with that epoch; the refusals' statuses; the epoch goes through exactly the gate's steps, on disk as the persist ended |
| `Epoch.CallerEpochIff` | internal/api/admin.go:167-176 | the epochs callers can send are the signed digit strings that fit 64 bits |
| `Epoch.TraceMoves` | internal/api/admin.go:114-144 | of those steps the epoch moves exactly after a mutation that carried it and succeeded |
| `Epoch.StepMonotoneIff` | internal/state/epoch.go:65-76 | exactly when a step keeps the file at or below memory and the returned values rising: always below the largest 64-bit value, and there as the wrap allows |
| `Epoch.ReturnedValuesRise` | internal/state/epoch.go:30-76 | over any run of increments, failures, deaths and restarts the returned values strictly rise |
| `Epoch.RestartReopensEpochIff` | internal/state/epoch.go:30-76 | over any run of increments, failures, deaths and restarts, a restart comes back at or below an epoch if and only if the file was not past it at the start and no increment past it was durable |
| `Epoch.LifeReopensEpochIff` | internal/state/epoch.go:30-76 | within the life of one process, its death included: exactly when every increment from that epoch on was lost |
| `Epoch.SameEpochIffNoSuccessBetween` | internal/api/admin.go:114-144 | two admitted requests carry one epoch if and only if no mutation completed between their validations |
| `Epoch.SerialSuccessesDistinct` | internal/api/admin.go:114-144 | served one at a time, the completions of two mutations carried different, rising epochs |
| `Epoch.OverlapSharesEpoch` | internal/api/admin.go:114-144 | two overlapping requests that carry one epoch and both complete |
| `AdminTransfer.Node.WriteFence` | internal/api/admin.go:405-413 | the fence reads back as written, or is as it was; a death leaves one or the other and no admin flag |
| `AdminTransfer.Node.AcceptPromotion` | internal/api/admin.go:444-475 | 200 exactly when the fence was written, and then the node is admin under it; a failed write changes nothing, a death leaves the fence old or new |
| `AdminTransfer.Node.Promote` | internal/api/admin.go:41-67 | nil exactly when the target accepted and its answer arrived; the target is left as its own write ended |
| `AdminTransfer.Node.TransferAdmin` | internal/api/admin.go:370-442 | both nodes end up as the specified transfer step says, rollback, failures and deaths included; 200 exactly on success |
| `AdminTransfer.TransferKeepsLeader` | internal/api/admin.go:397-441 | a transfer to another node that learns the answer keeps one admin with a maximal fence, raises it on success and undoes everything on a failure whose rollback is written |
| `AdminTransfer.RunKeepsLeader` | internal/api/admin.go:397-475 | over any run of such transfers there is one leader, and its fence rose by at least the number of successes |
| `AdminTransfer.OneAdminIff` | internal/api/admin.go:397-475 | exactly when a transfer leaves one admin, over every failed write, lost message and death: not when the sender dies with the role, an accepted answer is lost while the sender lives, or the node handed the role to itself |
| `AdminTransfer.SelfTransferLosesTheAdmin` | internal/api/admin.go:415-432 | a node that hands the role to itself leaves none |
| `AdminTransfer.LostAnswerMakesTwoAdmins` | internal/api/admin.go:415-429 | a lost answer leaves two |
| `Election.DaemonHostname` | internal/admin/bootstrap.go:124-134 | the loop gives the daemon name the fleet derives for a host |
| `Election.DaemonNameIs` | internal/admin/bootstrap.go:124-134 | the daemon name character by character: digits and letters kept, in small letters, anything else a dash, and no dash at either end |
| `Election.PeerHostnames` | internal/admin/bootstrap.go:136-156 | the sorted daemon names of exactly the fleet's other nodes, with repetitions |
| `Election.FleetPeersMembers` | internal/admin/bootstrap.go:140-153 | a name is a peer exactly if it is the daemon name of a listed host that is named, is defined and is not oneself |
| `Election.SortsFirst` | internal/admin/bootstrap.go:173-175 | the head of the sorted candidates is oneself exactly when no peer is smaller |
| `Election.DetermineIsAdmin` | internal/admin/bootstrap.go:158-176 | elected exactly if alone, or no probe found an admin and no peer's name is smaller |
| `Election.BootstrapState` | internal/admin/bootstrap.go:178-248 | its inline loop decides by the same rule; null exactly when the admin files cannot be made |
| `Election.BothElectedShareName` | internal/admin/bootstrap.go:158-176 | two nodes that list each other and both elect themselves have one name |
| `Election.AtMostOneElected` | internal/admin/bootstrap.go:136-176 | among nodes that list each other under distinct names at most one elects itself, whatever the probes return |
| `Election.LeastIsElected` | internal/admin/bootstrap.go:158-176 | with complete views and no admin answering, exactly the least name is elected |
| `Election.ElectsIff` | internal/admin/bootstrap.go:158-176 | whatever the probes answer: with a complete view a node is elected exactly when no other answers that it is admin and none has a smaller daemon name |
| `Election.ElectedIffNotUndercut` | internal/admin/bootstrap.go:158-176 | under whatever name it goes by, a node with a complete view and no admin answering is elected exactly when no other node's daemon name is smaller |
| `Election.BothElectedIff` | internal/admin/bootstrap.go:124-176 | with complete views and no admin answering, two nodes of any fleet both elect themselves exactly when neither is undercut by any other node; going by their own names, exactly when both hold the least daemon name |
| `Election.SanitizedNamesCollide` | internal/admin/bootstrap.go:124-134 | two host names with one daemon name |
| `Election.OverriddenNameElectsTwo` | cmd/tailkitd/run.go:422-446 | an overridden name that elects two nodes under distinct names |
| `ServiceRegistry.LoadDir` | internal/services/registry.go:101-129 | the loop over the listing gives exactly the services that some readable file defines, or an error for a directory that cannot be listed |
| `ServiceRegistry.ServicesInIff` | internal/services/registry.go:110-126 | what a directory defines: a service is there exactly if a .toml file holds a valid definition of it, as the greatest such file name has it |
| `ServiceRegistry.ReadAllHolds` | internal/services/registry.go:110-126 | files read one after the other each add their service, the last definition winning |
| `ServiceRegistry.ListingIsKept` | internal/services/registry.go:101-129 | skipping entries one by one gives the sorted listing of the loadable files |
| `ServiceRegistry.Registry.Open` | internal/services/registry.go:161-188 | a new registry holds what the readable files define, with nothing queued; null exactly when making, watching or listing the directory fails |
| `ServiceRegistry.Registry.Reload` | internal/services/registry.go:197-211 | the snapshot becomes what the readable files define, or stays when the directory cannot be listed |
| `ServiceRegistry.Registry.ResetRegistryTimer` | internal/services/registry.go:279-287 | from every state a run can reach, stop, drain and start leave the timer armed with no stale tick |
| `ServiceRegistry.StepKeepsOrderly` | internal/services/registry.go:236-287 | what every step keeps, timely or not: the timer is never armed with a tick waiting, a reload in progress came from a listing that worked, and a handler that missed no change will end with what the directory defines |
| `ServiceRegistry.ResetLeavesNoTick` | internal/services/registry.go:279-287 | so resetting leaves no stale tick |
| `ServiceRegistry.Registry.OnEvent` | internal/services/registry.go:246-260 | a write, create, rename or remove of a .toml name restarts the timer, anything else leaves it |
| `ServiceRegistry.Registry.OnTick` | internal/services/registry.go:261-269 | a tick is consumed and a reload begins, or fails at its listing and leaves the snapshot |
| `ServiceRegistry.Registry.OnReadNext` | internal/services/registry.go:110-127 | a reload reads its next file as it then stands |
| `ServiceRegistry.Registry.OnSkipNext` | internal/services/registry.go:115-123 | a file that cannot be read at that moment is skipped |
| `ServiceRegistry.Registry.OnPublish` | internal/services/registry.go:203-211 | the finished reload replaces the snapshot |
| `ServiceRegistry.Registry.OnHandler` | internal/api/admin.go:323-356 | a handler's reload lists, reads and publishes in steps of its own |
| `ServiceRegistry.Registry.WatchLoop` | internal/services/registry.go:236-277 | over any schedule, failing reloads and handlers' reloads included, the object goes through exactly the specified run |
| `ServiceRegistry.StepKeepsConsistentIff` | internal/services/registry.go:236-287 | a step keeps the snapshot current, or a reload under way that will make it so, or one owed, or the last reload marked as having missed something, exactly when it is not a handler publishing late |
| `ServiceRegistry.AlwaysConsistent` | internal/services/registry.go:236-287 | over any run in which handlers publish in time the snapshot stays so; idle, and with nothing missed by the last reload, it is what the directory defines, whatever failed before |
| `ServiceRegistry.ConsistentThroughoutIff` | internal/services/registry.go:197-287 | a run stays consistent throughout if and only if every handler in it publishes in time |
| `ServiceRegistry.FreshIsTimely` | internal/services/registry.go:197-211 | a handler since whose listing nothing relevant changed publishes in time |
| `ServiceRegistry.WatchBeforeLoadIsConsistent` | internal/services/registry.go:161-188 | watching before the first load establishes it |
| `ServiceRegistry.LoadedIsConsistent` | internal/services/registry.go:161-188 | and so does a finished first load |
| `ServiceRegistry.LoadBeforeWatchStaysStale` | internal/services/registry.go:161-188 | in the other order a change in between leaves the snapshot wrong over every run without a further relevant change |
| `ServiceRegistry.EveryScheduleSettles` | internal/services/registry.go:236-287 | once nothing changes, every schedule of the loop and its timer comes to an end within a computed number of steps, and where it can go no further the snapshot is what the directory defines, a failed listing included if a reload is owed again |
| `ServiceRegistry.BusyIff` | internal/services/registry.go:236-287 | the loop can take a step exactly when it is not idle |
| `ServiceRegistry.SettlingSchedule` | internal/services/registry.go:236-287 | so there is a schedule that settles it on the truth |
| `ServiceRegistry.NeverRetried` | internal/services/registry.go:261-263 | once settled, right or wrong, the snapshot stays what it is over every run without a relevant change or event and without a handler's reload |
| `ServiceRegistry.FailedReloadSticks` | internal/services/registry.go:261-263 | a tick whose listing fails with nothing else owed is such a state |
| `ServiceRegistry.CurrentWithoutListingIff` | internal/services/registry.go:261-263 | over any run in which no listing succeeds the snapshot does not move, and it is right at the end exactly when the directory then defines what it defined at the start |
| `ServiceRegistry.FailedReloadIff` | internal/services/registry.go:261-263 | the run of a change, its event, the timer and a listing that fails: nothing is owed any more, and over every quiet run after it the old snapshot stays and is right exactly when the change did not matter |
| `ServiceRegistry.FailedReloadLeavesStale` | internal/services/registry.go:261-263 | a concrete such run that stays wrong: the first service of an empty directory |
| `ServiceRegistry.SkippedReadIff` | internal/services/registry.go:110-126 | a reload that skips files it cannot read is not retried, and is right over every quiet run after it exactly when the other files define the same as all of them |
| `ServiceRegistry.SkippedReadLeavesStale` | internal/services/registry.go:110-126 | a concrete such run that stays wrong: the only file of a directory |
| `ServiceRegistry.LateHandlerPublishIff` | internal/api/admin.go:323-356 | for every way the loop catches up with a change, a handler that publishes after it leaves nothing owed, and the snapshot right exactly when what it had read is still what the directory defines; for a handler that was not stale, exactly when the change did not matter |
| `ServiceRegistry.LateHandlerPublishes` | internal/api/admin.go:323-356 | from a freshly loaded registry there is such a run, and it settles |
| `ServiceRegistry.HandlerReloadsAlone` | internal/services/registry.go:197-211 | with nothing in between, a handler's reload makes the snapshot current |
| `VarStore.Store.ReadScope` | internal/vars/store.go:271-285 | the scope's map, a nil one for the JSON value null, or which of the two ways it could not be read |
| `VarStore.Store.WriteScope` | internal/vars/store.go:297-333 | through its temporary file, each call failing or the process dying at it: a success replaces exactly the scope's file, an error leaves it, a death does one or the other, and only a temporary file can stay behind |
| `VarStore.Store.FillTemp` | internal/vars/store.go:301-327 | before the rename only the temporary file changes |
| `VarStore.Store.Set` | internal/vars/store.go:120-156 | succeeds exactly for a key that matches the pattern, a scope that can be written to and a write that ends well; an underscore first is reserved, any other mismatch invalid; only that scope's file changes, to the old map with the key set and the bookkeeping stamped, which shows as exactly that one change; a null file panics |
| `VarStore.ValidKeyIff` | internal/vars/store.go:34-39 | a key is valid exactly if it matches the pattern, as regular expressions are read |
| `Pattern.ClassThenStarIff` | internal/vars/store.go:34-39 | a class followed by a repeated class matches exactly the texts whose first character is of the one and whose others are of the other |
| `VarStore.StampedIs` | internal/vars/store.go:141-142 | a write stamps the two bookkeeping keys and leaves every other |
| `VarStore.Store.Delete` | internal/vars/store.go:161-193 | only that scope's file changes, and shows as exactly that key gone, a missing one included; a null file panics |
| `VarStore.Store.DeleteScope` | internal/vars/store.go:197-216 | exactly that scope is gone; a missing one is no error |
| `VarStore.Store.List` | internal/vars/store.go:69-89 | exactly the variables of an existing scope that do not start with an underscore |
| `VarStore.Store.Get` | internal/vars/store.go:94-115 | the value List would show, a reserved key refused |
| `VarStore.Store.RenderEnv` | internal/vars/store.go:220-240 | a quote-removing reader of the text gets back exactly the map List returns, in key order |
| `VarStore.ScopePathResolves` | internal/vars/store.go:265-267 | the file of a scope without slashes lies one step of its project away from the base directory, dots included |
| `VarStore.ScopesKeepApartIff` | internal/vars/store.go:265-267 | two scopes without slashes share a file if and only if they are one scope, or the base directory is the root and both projects are dots |
| `VarStore.RoutedIsSlashFree` | internal/vars/handlers.go:94-101 | the scope a request names has no slash |
| `VarStore.RouteReadsBack` | internal/vars/handlers.go:94-101 | and every such scope is named by a request, with any key |
| `VarStore.RequestsKeepApartIff` | internal/vars/handlers.go:94-101 | so two requests meet in one file exactly when they name one scope |
| `VarStore.LocksKeepApart` | internal/vars/store.go:258-262 | and have one lock exactly then |
| `VarStore.ClimbingScopesMeet` | internal/vars/store.go:265-267 | with a slash in the project, which a request cannot pass, two scopes can share one |
| `VarStore.StampingIsInvisible` | internal/vars/store.go:141-142 | the bookkeeping keys never show |
| `VarStore.EnvLines` | internal/vars/store.go:226-239 | the loop renders the variables in sorted order |
| `VarStore.QuotedReadsBack` | internal/vars/store.go:337-339 | quote removal undoes the quoting of any value, quotes and newlines included, and stops at the end of its line |
| `VarStore.QuotedIs` | internal/vars/store.go:337-339 | every apostrophe, and nothing else, is replaced, and the whole is in single quotes |
| `VarStore.EnvRoundTrip` | internal/vars/store.go:232-239 | reading the rendering of any pairs gives back the pairs in order |
| `VarStore.RenderingReadsBack` | internal/vars/store.go:220-240 | the pairs read back rebuild the map |
| `PortStream.SameIdentityIff` | internal/metrics/streams.go:234-236 | two entries share an identity exactly when their ports and the texts before the port agree |
| `PortStream.IdentityInjective` | internal/metrics/streams.go:234-236 | with no bar in the protocol the identity is the address, protocol and port |
| `PortStream.BarredProtocolsCollide` | internal/metrics/streams.go:234-236 | with one, two addresses can share an identity |
| `PortStream.DiffPorts` | internal/metrics/streams.go:206-232 | a sorted permutation of the entries whose identity is missing before |
| `PortStream.DiffMembers` | internal/metrics/streams.go:206-232 | the identities of a difference are the set difference |
| `PortStream.MissingCounts` | internal/metrics/streams.go:206-218 | every copy of an entry whose identity is missing before, and no other |
| `PortStream.QuietIff` | internal/metrics/streams.go:184-199 | a tick sends nothing exactly when the identities are unchanged; bound and released are disjoint |
| `PortStream.WriteAll` | internal/metrics/streams.go:184-199 | a batch is sent up to the event the connection refuses |
| `PortStream.SendTick` | internal/metrics/streams.go:180-200 | one tick sends what was bound and then what was released, up to where the connection fails |
| `PortStream.TickInOrder` | internal/metrics/streams.go:184-199 | what was bound comes before what was released, one event each |
| `PortStream.StreamPorts` | internal/metrics/streams.go:156-203 | the stream is a snapshot and the events of its ticks, cut where the connection fails |
| `PortStream.TicksReplay` | internal/metrics/streams.go:172-201 | after any number of ticks the events rebuild exactly the last sample's identities |
| `PortStream.WholeLogReplays` | internal/metrics/streams.go:156-203 | whatever the client held before |
| `PortStream.CutTickStaysBetween` | internal/metrics/streams.go:184-199 | cut within a tick, the client has what both samples have and nothing neither has |
| `PortStream.CutStreamStaysBetween` | internal/metrics/streams.go:156-203 | cut anywhere after the snapshot, the client stands between two samples taken one after the other |
| `Ports.ChangeOrderIsTotal` | internal/metrics/streams.go:219-230 | the order of changes leaves no two entries incomparable and is transitive |
| `Ports.SnapshotOrderIsTotal` | internal/metrics/ports.go:55-69 | the order of snapshots separates any two different entries |
| `Ports.ChangeLessIff` | internal/metrics/streams.go:219-230 | changes ascend by port, address, process number and process name |
| `Ports.SnapshotLessIff` | internal/metrics/ports.go:55-69 | snapshots ascend by port, address, protocol, process number and process name |
| `PortIndex.DecodeOfEncode` | internal/metrics/ports.go:176-180 | hexadecimal decoding undoes encoding |
| `PortIndex.EncodeOfDecode` | internal/metrics/ports.go:176-180 | and encoding undoes decoding, up to letter case |
| `PortIndex.DecodeProcIP` | internal/metrics/ports.go:176-200 | the byte-reversing loop gives the specified address, or an error for other text or another length |
| `PortIndex.DecodeSocketAddress` | internal/metrics/ports.go:158-174 | the specified address and port, or an error |
| `PortIndex.KernelFieldReadsBack` | internal/metrics/ports.go:158-200 | decoding undoes the kernel's field for every IPv4 and IPv6 address and port |
| `PortIndex.DecodedAddressPrintsBack` | internal/metrics/ports.go:176-200 | a field that decodes is the one the kernel prints for that address |
| `PortIndex.KernelOrderIs` | internal/metrics/ports.go:186-199 | within each word the bytes come last first |
| `PortIndex.LoopbackField` | internal/metrics/ports.go:158-200 | 0100007F:0050 is port 80 of 127.0.0.1 |
| `PortIndex.AddressDecodesIff` | internal/metrics/ports.go:176-200 | an address decodes exactly from eight hexadecimal digits of either case, or 32 for IPv6 |
| `PortIndex.EndpointIff` | internal/metrics/ports.go:158-174 | a field decodes exactly if its first colon separates an address from a port |
| `PortIndex.LeadingZeroOfPort` | internal/metrics/ports.go:163-166 | leading zeros do not change a port |
| `PortIndex.PortSize` | internal/metrics/ports.go:163-166 | up to four digits always make a port, more without a leading zero never |
| `PortIndex.SelectSocketAddr` | internal/metrics/ports.go:242-256 | the first row of the preferred kind of address: outside IPv4, outside IPv6, IPv4 loopback, IPv6 loopback, unreadable |
| `PortIndex.FirstBestIsFirstOfKind` | internal/metrics/ports.go:242-273 | the least score is the preferred kind |
| `PortIndex.IndexSockets` | internal/metrics/ports.go:222-226 | the index holds for each key its sockets in order |
| `PortIndex.IndexedBestIsScanned` | internal/metrics/ports.go:222-238 | the first best of the indexed rows is the first best of a scan of all sockets |
| `PortIndex.AddressIsUnique` | internal/metrics/ports.go:242-256 | the scan has one answer |
| `PortIndex.AddressIffPreferred` | internal/metrics/ports.go:222-273 | the address of a port is that of the first socket of the preferred kind for its protocol and port, and none if there is no such socket |
| `PortIndex.BuildSnapshot` | internal/metrics/ports.go:216-240 | every polled port, in order, with the address of the first socket of the preferred kind for its protocol and port |
| `PortIndex.SnapshotIsOrderFree` | internal/metrics/ports.go:39-71 | the order in which ports are polled does not show in a snapshot |
| `PortIndex.Snapshotter.Overwrite` | internal/metrics/ports.go:211 | the cache holds exactly the new ports, in the old buffer when it is large enough |
| `PortIndex.Snapshotter.Poll` | internal/metrics/ports.go:202-214 | the ports of the last poll that reported a change, whatever failed or stayed the same since |
| `PortIndex.Snapshotter.Snapshot` | internal/metrics/ports.go:39-71 | a new array with the last changed poll's ports and their preferred addresses, sorted; null when there are none; an error exactly when sockets or the poll fail |
| `LogLines.StampedTextKeptIff` | internal/docker/streams.go:176-189 | a stamped text comes back exactly when it does not start with a space |
| `LogLines.PlainLineIs` | internal/docker/streams.go:166-180 | without timestamps, or with nothing before a first space, the whole text is the line, under its container and stream |
| `LogLines.StampedLineIs` | internal/docker/streams.go:176-189 | what stands before the first space is the time if it parses, and part of the text if it does not |
| `LogLines.LinesConserve` | internal/docker/streams.go:138-164 | whole lines and tail account for every byte, and the tail holds no newline |
| `LogLines.WholeAppend` | internal/docker/streams.go:138-155 | new text adds lines after the whole ones; only the tail runs on |
| `LogLines.Writer.EmitLine` | internal/docker/streams.go:166-174 | the parsed line is emitted, or refused |
| `LogLines.Writer.Write` | internal/docker/streams.go:138-155 | every whole line is emitted and the tail kept; on a refusal that line is gone, the rest stays buffered and no bytes count |
| `LogLines.Writer.Flush` | internal/docker/streams.go:157-164 | a non-empty tail is the last line, and the buffer is empty |
| `LogLines.WriteChunk` | internal/docker/streams.go:118-120 | after each chunk everything whole so far is out |
| `LogLines.FollowStream` | internal/docker/streams.go:118-127 | of one stream alone: the lines depend on the bytes, not on where they were cut; a failing emitter got exactly the first ones |
| `LogLines.CopyFrame` | internal/docker/streams.go:118-120 | a frame of either stream keeps both streams' whole lines out and tails buffered; a refused line leaves each with a beginning of its lines |
| `LogLines.FlushBoth` | internal/docker/streams.go:121-126 | both tails become last lines, or a refusal leaves each stream with a beginning |
| `LogLines.FollowLogs` | internal/docker/streams.go:92-128 | of two streams interleaved frame by frame, each one's lines are those of its own bytes; a failing copy leaves out the unended last lines, a failing callback leaves a beginning of each |
| `ToolVersion.ZeroPadLoop` | internal/tools/registry.go:174-179 | the loop pads to the width |
| `ToolVersion.VersionAtLeast` | internal/tools/registry.go:143-168 | the loops decide the specified padded comparison, early returns included |
| `ToolVersion.HasTool` | internal/tools/registry.go:75-92 | found exactly if some listed tool has the name and, unless no minimum is asked, a sufficient version |
| `ToolVersion.AtLeastIsNumeric` | internal/tools/registry.go:143-179 | for digit components of any lengths, the comparison is the lexicographic one of the numbers, padded with zeros |
| `ToolVersion.VersionsCompareAsNumbers` | internal/tools/registry.go:143-179 | from the text: versions in digits of any lengths, with or without a leading v on either side, compare as their lists of numbers, missing ones being 0 |
| `ToolVersion.PrintedVersionsCompare` | internal/tools/registry.go:143-179 | in particular those that print the numbers |
| `ToolVersion.LeadingVIgnored` | internal/tools/registry.go:144-146 | on any text a leading v makes no difference on either side |
| `ToolVersion.PartsJoin` | internal/tools/registry.go:144-149 | the components of any text are its pieces between the dots, without one leading v |
| `ToolVersion.ZeroPadIs` | internal/tools/registry.go:174-179 | padding puts zeros in front, up to the width |
| `ToolVersion.LessIsSmaller` | internal/tools/registry.go:158-166 | equally long digit strings compare as their numbers |
| `ToolVersion.AtLeastIsTotalPreorder` | internal/tools/registry.go:143-168 | for any versions at all, the comparison is reflexive, total and transitive |
| `InboxPath.AcceptsIff` | internal/files/handlers.go:542-554 | accepted exactly when the path is relative and what it leads to has the directory's components as a prefix; the result is that clean path |
| `InboxPath.PrefixTestIff` | internal/files/handlers.go:549-550 | the string test is the component test |
| `InboxPath.AcceptedIsInside` | internal/files/handlers.go:540-554 | below an absolute directory the result lies inside it, has no empty, `.` or `..` component, and is clean |
| `InboxPath.DescendingIsAccepted` | internal/files/handlers.go:540-554 | a path that never climbs is accepted, at its own resolution below the directory |
| `InboxPath.CleanIdempotent` | internal/files/handlers.go:547 | cleaning a clean path changes nothing |
| `InboxPath.WalkRules` | internal/files/handlers.go:547 | the rules of cleaning: empty and dot components count for nothing, a name and `..` cancel out, `..` at the root counts for nothing |
| `InboxPath.JoinedResolves` | internal/files/handlers.go:547 | joining and cleaning walks from the directory along the path |
| `InboxPath.RootAcceptsOnlyItself` | internal/files/handlers.go:549-550 | with a directory of no components only paths that lead back to it are accepted |
| `InboxPath.RootRefusesAChild` | internal/files/handlers.go:549-550 | at `/` the child `a` is refused |
| `AccessRegistry.RolesOrderAsText` | internal/access/registry.go:119 | the two roles sort as their names do |
| `AccessRegistry.GrantOrderIsTotal` | internal/access/registry.go:112-120 | the sort order separates any two different grants |
| `AccessRegistry.LoadFile` | internal/access/registry.go:128-147 | the grants of a file, or an error if any one is invalid |
| `AccessRegistry.ValidateIff` | internal/access/registry.go:32-48 | a grant is valid exactly if its texts, but for case and surrounding white space, are a name, a target and admin or superadmin |
| `AccessRegistry.CollectedIff` | internal/access/registry.go:97-147 | a grant is collected exactly if it is a valid grant of a readable .toml file all of whose grants are valid |
| `AccessRegistry.GrantLessIff` | internal/access/registry.go:112-120 | grants ascend by identity, target and role |
| `AccessRegistry.FileIsAllOrNothing` | internal/access/registry.go:32-48 | one invalid grant discards its file; else every grant is kept in place |
| `AccessRegistry.CollectGrants` | internal/access/registry.go:97-111 | the grants of every loadable file, bad files skipped |
| `AccessRegistry.Registry.Reload` | internal/access/registry.go:92-126 | the sorted grants of the directory, or the old ones if it cannot be listed |
| `AccessRegistry.Registry.RoleFor` | internal/access/registry.go:163-186 | the first exact and last wildcard match give the rule's role: exact before wildcard, admin winning an exact tie and superadmin a wildcard tie |
| `AccessRegistry.Registry.Allow` | internal/access/registry.go:188-205 | by the grants: services with any grant for the target or for all; hosts, grants and the admin role with a superadmin grant for the target that no admin grant overrides, or one for all if there is none for the target; nothing else |
| `AccessRegistry.PermitsIff` | internal/access/registry.go:163-205 | the role the loop finds permits exactly that |
| `AccessRegistry.SecondLookupFails` | internal/access/registry.go:189-195 | a caller with no role for a target has none for the wildcard |
| `AccessRegistry.GrantDemotesIff` | internal/access/registry.go:163-186 | one more grant takes superadmin away exactly when it is the exact admin grant |
| `AccessRegistry.ReloadIsOrderFree` | internal/access/registry.go:92-126 | which files the grants came from, and in what order, does not show |
| `Order.SortedUnique` | internal/access/registry.go:112-120 | a total order leaves a sort no choice |
| `Order.LessIff` | internal/access/registry.go:112-120 | Go's order of strings: a proper prefix is smaller, else the smaller character at the first difference |
| `Text.HasPrefixIff` | internal/tools/registry.go:144-146 | a prefix is what the text can be cut after |
| `Text.HasSuffixIff` | internal/services/registry.go:112 | a suffix is what the text can be cut before |
| `Text.TrimPrefixIff` | internal/tools/registry.go:144-146 | a prefix is taken off once, where there is one |
| `Text.TrimSuffixIff` | internal/exec/handlers.go:186 | and so a suffix |
| `Text.JoinOfSplit` | internal/tools/registry.go:170-172 | joining what was split gives the text |
| `Text.NormalTextIff` | internal/access/registry.go:33-35 | what lowering and trimming leave of a text |
| `Decimal.ParsePrint` | internal/sse/writer.go:80-128 | reading back a printed 64-bit number gives the number |
| `Decimal.ParseInt64Iff` | internal/sse/writer.go:118-129 | exactly the signed digit strings whose number fits 64 bits are numbers |
| `Decimal.CanonicalIsPrinted` | internal/sse/writer.go:80 | a digit string without leading zeros is the print of its value |
| `Decimal.FileTextRoundTrip` | internal/state/epoch.go:30-76 | so does reading back a state file's trimmed text |

## Left out

- Docker, systemd, gopsutil, tsnet, D-Bus and procfs access, process execution and journald: foreign systems; what they return is a parameter here.
- JSON, TOML, Ed25519, SHA-256 and base64: the stored data is modelled, not its text; that JSON keeps strings assumes valid UTF-8, and payload encoding is a function parameter that yields one line.
- The event names of github.com/wf-pro-dev/tailkit: that module is not part of this model; the job event names are those of docs/api.md:52-56, the name of the error event is taken to be "error".
- HTTP routing, logging and enabled/allow checks: each is settled by reading one branch.
- Concurrency within one method: the code holds a lock there; steps that are not under one lock (check and claim, validate and increment, events and reloads) are interleaved in the step machines.
- Unicode: case folding and white space follow ASCII; characters of strings stand for the bytes or runes the code compares.
- JobResume.ResumeExactlyOnce: bounded by the 64-bit id counter, and for event lists that the looked-up ones begin; JobHistory.RecordReplayIff and JobHistory.StoredJobReplays state it for records.
- JobHistory.RecordReplayIff: for records that follow one job from accepted to its one terminal result, as every caller stores them.
- JobHistory.StoredJobReplays: the job ends within five minutes of being accepted and the client is done within five more; without that, JobStore.LookupsAgree and JobHistory.RecordReplayIff say what happens.
- JobResume.HistoryKeepsStep: for connections that do not wipe the client's id; InStepAfterIff shows the condition to be exact.
- SseWire.ResponseDecodes: for names and payloads without line breaks and with a non-empty name, which is all the code sends; the reader's byte order mark and retry field are not modelled.
- Disk.Disk.AtomicWrite: a death is the process dying with the file system intact; loss of power is PowerLoss.Machine.AtomicWrite. The temporary name is one that is not taken, as os.CreateTemp guarantees; permissions of the directory are not modelled.
- Epoch.ReturnedValuesRise: up to the largest 64-bit value; the wrap beyond it is shown to break it.
- AdminTransfer.RunKeepsLeader: one transfer finishes before the next begins, its answer arrives and nobody dies in it; OneAdminIff has the other cases. Concurrent transfers from one node are not modelled.
- AdminTransfer.Node.TransferAdmin: the admin's fence file is the one that is read back, as cmd/tailkitd wires it.
- ServiceRegistry.AlwaysConsistent: every change is followed by its event, so a watcher that drops events is not modelled, and handlers publish in time; ConsistentThroughoutIff shows that condition to be exact. Closing the registry just ends the loop.
- ServiceRegistry.EveryScheduleSettles: about the loop and the timer once the directory stands still and listings and reads succeed; that an armed timer runs out and the loop is scheduled at all is assumed.
- ServiceRegistry.Registry.Reload: with nothing changing meanwhile; reloads that overlap changes are the steps of WatchLoop.
- VarStore.Store.RenderEnv: reads lines of the form key=word; keys with `.`, `/` or `-` are not names a shell would assign to.
- LogLines.FollowLogs: Docker's frame headers are taken as parsed.
- PowerRuns.EpochsRiseIff: up to the largest 64-bit value, as Epoch.StepMonotoneIff shows.
- PowerLoss.Machine.AtomicWrite: a file's content is one unit, synced or not; the directory is the one that holds the target, and its own entry is taken to be durable, which the daemon's MkdirAll does not see to.
- PortStream.StreamPorts: the clock and the ticker are the list of samples.
- PortIndex.Snapshotter.Snapshot: reading the socket files is a parameter, and net.IP text is the function `parse`; which rows of those files are kept is not modelled.
- JobStore.GoneAfterTTL: assumes a pass in every thirty seconds, as the ticker gives them.
- ToolVersion.HasTool: tools that could be listed are a parameter.
- InboxPath.AcceptsIff: lexical only, as the code is; symbolic links are not looked at.
- The access registry's watch loop: the same debounce as the service registry's.
- exec.Registry, the metrics samplers, installer, verify report, CLI and configuration loaders: linear scripts and field checks that would only add easy members.
