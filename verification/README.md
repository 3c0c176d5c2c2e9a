# Verified models of the frpp agent

These Dafny modules model the stateful parts of the frpp client agent (frppc) and prove what they promise. Code that
changes state step by step is modelled by classes and methods proved against functions on values; what runs concurrently is
modelled as a state machine whose steps are the critical sections. The main results are about every input, every run or every
interleaving.

- **Event debouncer** (`Events`, `Bursts`, `TimedDebouncer`, `BurstSemantics`, `InterleavedDebouncer`, `EmissionRuns`,
  `DebouncerSafety`, `StaleFlush`, `WireCount`). It is modelled twice, because different things are true of the two models.
  Under a clock, with calls that run to completion and timers that fire before anything else at the same instant, the log is
  exactly the offline reading of each key's bursts, and the rate of emissions is bounded. With critical sections, fired timers and
  emissions interleaved in any order, what is emitted for a key are consecutive runs of its submissions, each once; no key is
  stranded and stopping is permanent; the count then reads back from the wire.
- **Tunnel registry** (`SyncMaps`, `Controllers`, `Registry`, `RegistryLaws`, `RegistryRuns`, `PullTermination`, `PullReach`,
  `Services`, `AddRace`). The nested maps refine a flat one; the recursive pull refines a function on values, which is a fold of local
  steps; no tunnel is orphaned when requests are served one at a time, and when they interleave step by step at a pair it is
  proved of each handler exactly which schedules orphan it; pulls end if and only if the child relation has a rank function,
  and a pull that ends reaches exactly the clients that the answers lead to and delivers to each of them.
- **Handler runs** (`HandlerRuns`). Any number of goroutines calling Run on one handler.
- **gRPC over WebSocket** (`Listeners`, `StreamConns`). The bounded queue whose Close drains it while Accept runs, and the byte
  stream over binary messages (section 5.6 of RFC 6455).
- **Replacing the binary** (`BinaryReplacement`). Every file-system step may fail and the process may stop after any of
  them; the disk records every state it goes through.
- **Log sessions** (`LogSessions`, `LogStreams`). Hand-over of the log stream between sessions, with bounded channels that
  drop lines.
- **Shutdown** (`Shutdowns`). The three parts ended together, in order, once.

## Results that differ from what one would expect

Where the code and its comments or its evident purpose disagree, the model follows the code. For each case one member states
exactly when the expected property holds, and another gives an input for which it does not.

| what one would expect | exactly when it holds | an input for which it does not |
|---|---|---|
| A timer closes a window only after a window of silence; but `flush` finds its entry by key alone (utils/systemevent/debouncer.go:126-133). Nothing is lost by that. | `StaleFlush.ClosesEarlyIff`, and a schedule on which it always holds, `StaleFlush.PromptRunsCloseNoneEarly` | `StaleFlush.StaleFlushClosesEarly` |
| Expired children are removed; but the pass takes the listed ids that are not registered (cmd/frppc/frpcclient/rpc_pull_config.go:54). The other half of the difference would do it, `RegistryLaws.UnlistedArePruned`, provided an empty list is exempt. | `RegistryLaws.PruneMeetsIntent` | `RegistryRuns.ExpiredChildStays` |
| A pull ends; but the recursion skips only a client's own id. | `PullTermination.PullsEndIffRanked`, `PullTermination.EndsIfShallow` | `PullTermination.MutualChildrenNeverEnd` |
| A successful pull leaves a handler that is not stopped; but one that was told to stop and has not ended counts as running. | `RegistryLaws.LeafMayKeepStopped` | `RegistryRuns.PullKeepsStopped` |
| A successful push leaves a live handler; but a push does not look at whether the handler runs. | `RegistryLaws.PushMayKeepStopped` | `RegistryRuns.PushKeepsDead` |
| A client has a handler for one server only; but a change of server leaves the old one. | `RegistryLaws.OtherServersStay` | `RegistryRuns.ServerChangeKeepsOld` |
| No handler is orphaned by requests that overlap; but neither recreating a handler, nor Add, nor a stop request is one critical section. | `AddRace.OrphanedIff`, `AddRace.NoOrphansIff`, `AddRace.NoOrphansIffGuarded`, and two special cases, `AddRace.OrphanIffOverlap`, `AddRace.AddsAlone` | `AddRace.TwoRecreationsOrphan`, `AddRace.RacingAddsOrphan`, `AddRace.AddInsideStopOrphans`, `AddRace.StopInsideAddOrphans` |
| Stopping the debouncer loses nothing when the connection closes right after (cmd/frppc/frpcclient/service.go:104-107); but Stop does not wait for a flush that released the lock and has yet to emit (utils/systemevent/debouncer.go:134-140). | `DebouncerSafety.StopLeavesCarried` | `DebouncerSafety.StopLeavesFlush` |
| The count reaches the wire; but the encoder (encoding/json/v2) refuses a string that is not valid UTF-8, and then it is not sent. | `WireCount.CountReadsBack` | `WireCount.CountLost` |
| Annotating keeps the other fields; but numbers go through a 64-bit float. | `WireCount.MergeKeepsPayload` | `WireCount.NumberLost` |
| A read returns data as long as there is some; but an empty write ends the reader's stream. | `StreamConns.ReadMakesProgress`, `StreamConns.ReadFullRebuilds` | `StreamConns.EmptyWriteEndsFile` |
| A replacement that fails leaves the last backup alone; but the backup is removed before the new one is made. | `BinaryReplacement.LastBackupStays` | `BinaryReplacement.BackupLost`, `BinaryReplacement.LosesBackup` |

## Reading the models

Ids, keys, names and log lines are only ever compared or copied, so they are numbered; the empty dedupe key is `NoKey`. What frp
decides (which tunnels are valid, which configurations a client can be built for), what the master answers, what a float makes
of an integer, and which file-system steps fail are parameters, so every result holds for all of them. Time is an integer that
the caller advances; the silence window is a parameter (the agent uses five seconds, haokun/defs/system_event.go:10).

## Model

| member | source | states |
|---|---|---|
| TimedDebouncer.Debouncer.constructor | utils/systemevent/debouncer.go:73-79 | A new debouncer has nothing pending, is not stopped and has emitted nothing. |
| TimedDebouncer.PendingKey.constructor | utils/systemevent/debouncer.go:114-118 | A new pending entry holds its leading event, a count of zero and the instant at which its timer fires. |
| TimedDebouncer.PendingKey.Buffer | utils/systemevent/debouncer.go:105-107 | Buffering replaces the last event, counts one more and resets the timer. |
| TimedDebouncer.Debouncer.Submit | utils/systemevent/debouncer.go:85-122 | The whole new state: a nil event does nothing; an event without a key, without a window or after a stop is emitted at once with count 1; one in an open window is only buffered and moves the deadline; any other is emitted with count 1 and opens a window. |
| TimedDebouncer.Debouncer.Emit | utils/systemevent/debouncer.go:48 | One call of the emit callback, with the event, its count and the present instant, after all others. |
| TimedDebouncer.Debouncer.FireNext | utils/systemevent/debouncer.go:117 | The earliest timer fires at its own deadline and closes its own window only. |
| TimedDebouncer.Debouncer.Extend | utils/systemevent/debouncer.go:103-110 | Inside an open window nothing is emitted: the window of this key alone is extended and its count grows by one. |
| TimedDebouncer.Debouncer.OpenWindow | utils/systemevent/debouncer.go:114-118 | The leading event opens a window with count zero for its own key only. |
| TimedDebouncer.Debouncer.Flush | utils/systemevent/debouncer.go:126-141 | The key is forgotten, and its last event is emitted with the buffered count, unless nothing was buffered or the key is gone. |
| TimedDebouncer.Debouncer.NextTimer | utils/systemevent/debouncer.go:107-117 | Timers due by an instant are found exactly when there is one, earliest first. |
| TimedDebouncer.Debouncer.FireDue | utils/systemevent/debouncer.go:117 | The next timer that is due fires, after those that have fired and no later than those to come. |
| TimedDebouncer.Debouncer.Advance | utils/systemevent/debouncer.go:114-141 | When time passes, exactly the timers due by then fire, each at its own deadline, earliest first. |
| TimedDebouncer.Debouncer.Stop | utils/systemevent/debouncer.go:146-166 | Every open window is closed at the instant of the stop, each once, and nothing stays pending; a second stop does nothing. |
| TimedDebouncer.Debouncer.Collect | utils/systemevent/debouncer.go:153-158 | Every entry is taken out of the map, once, in any order. |
| TimedDebouncer.Debouncer.EmitAll | utils/systemevent/debouncer.go:161-165 | The entries that Stop collected are emitted with their own events and counts, those with nothing buffered left out. |
| TimedDebouncer.TraceClosed | utils/systemevent/debouncer.go:161-165 | Closing windows in any order adds to the trace of a key exactly what that key had buffered. |
| Bursts.CutExists | utils/systemevent/debouncer.go:81-84 | Every history of one key splits into bursts: maximal runs with gaps below the window. |
| Bursts.CutUnique | utils/systemevent/debouncer.go:81-84 | There is only one such split, so "the bursts" of a history is well defined. |
| Bursts.OnlineIsOffline | utils/systemevent/debouncer.go:96-141 | The online automaton for a key emits exactly what its bursts say: one leading emission of the first event with count 1, and, for a burst of n > 1 events, one trailing emission of the last event with count n-1 at the last time plus the window. |
| Bursts.RateBound | utils/systemevent/debouncer.go:96-140 | However many events a key has, an interval of m windows holds at most 2m of its emissions. |
| Bursts.IntervalCounts | utils/systemevent/debouncer.go:96-140 | The count in that bound is the number of emissions in the interval. |
| Bursts.OnlineSpaced | utils/systemevent/debouncer.go:96-140 | A key's emissions come in time order, and any third one is at least a window after the first. |
| BurstSemantics.AdvanceAgrees | utils/systemevent/debouncer.go:114-141 | Letting time pass keeps the debouncer equal, key by key, to the automaton fed with that key's own history. |
| BurstSemantics.SubmitAgrees | utils/systemevent/debouncer.go:85-122 | So does a submission; events of other keys have no influence on a key. |
| BurstSemantics.Replay | utils/systemevent/debouncer.go:85-141 | For any history of timed submissions, the debouncer object ends with windows and a log that are, for every key, what that key's history alone determines: its trace is the offline reading of its bursts. |
| BurstSemantics.LogIsBursts | utils/systemevent/debouncer.go:81-141 | Burst semantics of the object: the trace of every key in the log is the offline reading of that key's bursts. |
| BurstSemantics.LogIsBounded | utils/systemevent/debouncer.go:96-140 | Rate bound of the object, for every key with a window. |
| BurstSemantics.StoppedIsBursts | utils/systemevent/debouncer.go:143-166 | A stop only brings the last burst's aggregate forward: it comes at the end of the window or at the stop, whichever is first, with the same event and count. |
| BurstSemantics.StopAgrees | utils/systemevent/debouncer.go:146-166 | After a stop, the log holds for every key its history and the aggregate that was still buffered. |
| BurstSemantics.LateAgrees | utils/systemevent/debouncer.go:96-101 | A submission after the stop adds exactly itself to its own key's trace. |
| BurstSemantics.Life | utils/systemevent/debouncer.go:85-166 | A whole life, history, stop and late submissions: every key's trace is its stopped trace followed by the late events one by one. |
| InterleavedDebouncer.SubmitInv | utils/systemevent/debouncer.go:85-122 | Submit's critical section keeps the invariant: entries under their own keys, every pending key with a timer armed or a flush in flight, and no entry held twice. |
| InterleavedDebouncer.FireInv | utils/systemevent/debouncer.go:117 | So does a timer that fires: its flush is in flight before the timer counts as spent. |
| InterleavedDebouncer.RunInv | utils/systemevent/debouncer.go:126-141 | So does every step of a flush, an emission or a stop in progress. |
| InterleavedDebouncer.StopInv | utils/systemevent/debouncer.go:146-159 | So does Stop's critical section, in whatever order it meets the entries. |
| InterleavedDebouncer.StepInv | utils/systemevent/debouncer.go:85-166 | No interleaving strands a pending key, changes which key an entry belongs to, or lets two threads hold one entry. |
| InterleavedDebouncer.NeverBlocks | utils/systemevent/debouncer.go:85-166 | In every state an event can be submitted, the debouncer stopped, an armed timer fired, and an unfinished thread continued. |
| EmissionRuns.SubmitApart | utils/systemevent/debouncer.go:85-122 | Whatever is added up over emissions, Submit adds exactly the one emission it decides on, or nothing when it buffers. |
| EmissionRuns.FireApart | utils/systemevent/debouncer.go:117 | A timer that fires decides on nothing. |
| EmissionRuns.RunApart | utils/systemevent/debouncer.go:126-141 | A flush decides on what its entry has buffered; from then on thread steps only move that, whole, to what was emitted. |
| EmissionRuns.StopApart | utils/systemevent/debouncer.go:146-166 | Stop decides on exactly what the entries it collects have buffered. |
| EmissionRuns.StepParts | utils/systemevent/debouncer.go:85-166 | Every step keeps this: for each key, what has been decided on, and then what is buffered, cuts the submissions, in lock order, into consecutive runs, each given by its last event and its length. |
| EmissionRuns.AlwaysParted | utils/systemevent/debouncer.go:85-166 | In every reachable state of every interleaving: the decided emissions are runs of each key's submissions, and add up, in every way, to what was emitted or is on its way. |
| DebouncerSafety.AlwaysConserved | utils/systemevent/debouncer.go:85-166 | Conservation in every reachable state of every interleaving, stale flushes included. |
| DebouncerSafety.NothingLost | utils/systemevent/debouncer.go:143-166 | Once everything in flight is done, after a stop or after the timers ran out, the emitted counts of a key sum exactly to its submissions, and nothing is pending. |
| DebouncerSafety.EmissionsAreRuns | utils/systemevent/debouncer.go:85-166 | Once everything in flight is done, the emissions are, in some order, exactly such runs: no event is emitted for a run it does not end, none is skipped, none is in two. |
| DebouncerSafety.EmittedAreDecided | utils/systemevent/debouncer.go:85-166 | At any moment nothing has been emitted, or emitted more often, than was decided on. |
| DebouncerSafety.RemovedIsFrozen | utils/systemevent/debouncer.go:128-140 | An entry that flush or Stop removed is not changed by any step, although its count and last event are read after the unlock. |
| DebouncerSafety.FrozenForever | utils/systemevent/debouncer.go:128-140 | It stays that way for the rest of the run, and never comes back. |
| DebouncerSafety.TakenOnce | utils/systemevent/debouncer.go:128-159 | No buffered entry is taken by two flushes or by a flush and by Stop. |
| DebouncerSafety.StopIsPermanent | utils/systemevent/debouncer.go:96-101 | Once stopped: nothing is pending after any step, a submission becomes one emission with count 1, a late flush emits nothing, and another Stop changes nothing. |
| DebouncerSafety.StaysStopped | utils/systemevent/debouncer.go:146-152 | A run that was stopped stays stopped, with nothing pending. |
| DebouncerSafety.StopLeavesCarried | utils/systemevent/debouncer.go:126-166 | In every stopped state of every interleaving a key has never more emissions, counted, than submissions, and fewer exactly as long as some thread carries events of it: Stop with entries it has still to go through, a Submit or flush about to call emit, or a flush that took its entry and released the lock. |
| DebouncerSafety.StopLeavesFlush | utils/systemevent/debouncer.go:134-166 | The input: Stop has returned, and a flush that took its entry before still has one event to emit. |
| DebouncerSafety.InternalStepsWork | utils/systemevent/debouncer.go:114-166 | Each step of a timer or a thread leaves less to do, so left alone the machine comes to rest. |
| DebouncerSafety.Settles | utils/systemevent/debouncer.go:85-166 | From any reachable state the timers and threads alone can finish, within a bounded number of steps, and then every key's emitted counts equal its submissions. |
| StaleFlush.StaleFlushClosesEarly | utils/systemevent/debouncer.go:126-133 | The input: a timer fires, a Submit resets it, and the old flush closes the extended window while its timer is armed. |
| StaleFlush.ArmedIffSubmittedLast | utils/systemevent/debouncer.go:103-118 | A pending entry's timer is armed if and only if a submission into it came after its last firing. |
| StaleFlush.ClosesEarlyIff | utils/systemevent/debouncer.go:126-133 | Exactly when a flush closes a window early: when a submission into the entry it finds came after the last firing of that entry's timer. |
| StaleFlush.PromptRunsCloseNoneEarly | utils/systemevent/debouncer.go:107-133 | If nothing is submitted for a key between a firing of its timer and the flush that this starts, no window is ever closed early. |
| WireCount.MergeAggregateCount | utils/systemevent/aggregate.go:27-52 | There is a merged document if and only if the count exceeds 1 and every other field of the payload, or the payload itself, can be encoded; it is the one that MergeKeepsPayload describes. |
| WireCount.EventMessage.constructor | cmd/frppc/frpcclient/aggregate.go:25 | A clone holds the event it was made from. |
| WireCount.WithAggregateCount | cmd/frppc/frpcclient/aggregate.go:17-28 | The message passed in is never modified: for a count up to 1, or a payload that cannot be encoded, the very same message comes back; otherwise a copy that differs in its payload only. |
| WireCount.CountReadsBack | utils/systemevent/aggregate.go:27-52 | For a payload without its own count, the count on the wire reads back exactly when it is 1 or the payload can be encoded again. |
| WireCount.CountOnWire | utils/systemevent/aggregate.go:27-52 | For every payload and count, one with a count of its own included: a reader finds the count if it exceeds 1 and the rest can be encoded, and otherwise what the event said before. |
| WireCount.EncodableIff | utils/systemevent/aggregate.go:47-50 | A value can be encoded if and only if every string inside it, at whatever depth, is valid UTF-8. |
| WireCount.DecodedInside | utils/systemevent/aggregate.go:34-37 | Decoding changes nothing but numbers, at every place inside a value, and no place comes or goes. |
| WireCount.CountLost | utils/systemevent/aggregate.go:47-50 | The input for which it does not: a payload that neither parses nor is valid UTF-8, emitted for two, is read as one. |
| WireCount.MergeKeepsPayload | utils/systemevent/aggregate.go:32-45 | Which fields the merged object has, for each kind of payload: "aggregate_count" is set; every other field of an object payload stays, unchanged exactly when its numbers survive the 64-bit float of the decoding; any other payload is kept under "payload", under the same condition; an absent one adds nothing. |
| WireCount.NumberLost | utils/systemevent/aggregate.go:34-37 | The input for which it does not: an integer field that a 64-bit float does not hold. |
| WireCount.MergeTwice | utils/systemevent/aggregate.go:32-51 | Annotating twice is annotating with the last count. |
| WireCount.AlwaysSourced | cmd/frppc/frpcclient/rpc_push_event.go:48-55 | Whatever is emitted was submitted, and stands for at least one occurrence. |
| WireCount.WireCountsSubmissions | cmd/frppc/frpcclient/rpc_push_event.go:48-55 | End to end: in every settled run, the counts read from what is pushed for a key sum to the number of events submitted for it. |
| SyncMaps.SyncMap.constructor | utils/sync.go:46-56 | A new map is empty. |
| SyncMaps.SyncMap.Load | utils/sync.go:48-59 | The value under the key, if there is one. |
| SyncMaps.SyncMap.Store | utils/sync.go:62-69 | The key holds the value, and nothing else changes. |
| SyncMaps.SyncMap.LoadOrStore | utils/sync.go:73-84 | What is there stays and is returned; only an absent key gets the given value. |
| SyncMaps.SyncMap.LoadAndDelete | utils/sync.go:88-103 | Returns what was there and removes exactly that key. |
| SyncMaps.SyncMap.Delete | utils/sync.go:106-117 | Removes exactly that key. |
| SyncMaps.SyncMap.Keys | utils/sync.go:170-181 | Exactly the keys of the map, each once. |
| Controllers.ClientHandler.constructor | cmd/frppc/frpcclient/handler.go:72-77 | A new handler holds the common configuration and both name maps. |
| Controllers.ClientHandler.Stop | cmd/frppc/frpcclient/handler.go:103-105 | Stop marks the handler stopped and changes nothing else. |
| Controllers.ClientHandler.Update | cmd/frppc/frpcclient/handler.go:107-111 | Update replaces both name maps and what is served, unfiltered, and nothing else. |
| Controllers.ClientHandler.SetRunning | cmd/frppc/frpcclient/handler.go:80-101 | A run sets and clears the flag, and nothing else. |
| Controllers.ClientHandler.Launch | cmd/frppc/frpcclient/controller.go:60 | Its run is started once more. |
| Controllers.Controller.constructor | cmd/frppc/frpcclient/controller.go:12-16 | A new controller is the empty flat map. |
| Controllers.Controller.ServersOf | cmd/frppc/frpcclient/controller.go:19 | The inner map of a client is found, or made without touching the flat map. |
| Controllers.Controller.Add | cmd/frppc/frpcclient/controller.go:18-24 | Add refines an update of the flat map, and stops the handler it displaces. |
| Controllers.Controller.Replace | cmd/frppc/frpcclient/controller.go:20-23 | The step inside one inner map: displace, stop, store. |
| Controllers.Controller.Get | cmd/frppc/frpcclient/controller.go:26-36 | Get refines a lookup in the flat map. |
| Controllers.Controller.Stop | cmd/frppc/frpcclient/controller.go:63-71 | Stops the handler of that pair, if any, and no other. |
| Controllers.Controller.Delete | cmd/frppc/frpcclient/controller.go:38-43 | Delete stops the handler and refines a removal from the flat map. |
| Controllers.Controller.DeleteByClient | cmd/frppc/frpcclient/controller.go:45-47 | Removes exactly the pairs of one client, and stops nothing. |
| Controllers.Controller.Run | cmd/frppc/frpcclient/controller.go:49-61 | Launches the handler of that pair, if any. |
| Controllers.Controller.StopServers | utils/sync.go:123-145 | Ranging over one inner map stops every handler in it. |
| Controllers.Controller.StopByClient | cmd/frppc/frpcclient/controller.go:73-84 | Stops every handler of one client, and only those. |
| Controllers.Controller.StopAll | cmd/frppc/frpcclient/controller.go:86-96 | Stops every registered handler, through two nested ranges. |
| Controllers.Controller.DeleteAll | cmd/frppc/frpcclient/controller.go:98-104 | Deleting while ranging ends with the empty flat map. |
| Controllers.Controller.List | cmd/frppc/frpcclient/controller.go:106-108 | Every client with a registered handler is listed. |
| AddRace.AlwaysInv | cmd/frppc/frpcclient/controller.go:18-104 | Under every interleaving of the steps: a handler sits in the inner map that its own call found, it is stopped only after it was stored, and no call stores before it took. |
| AddRace.LostForGood | cmd/frppc/frpcclient/controller.go:18-43 | A handler that was overwritten or deleted before anybody read it is never stopped afterwards, whatever happens next. |
| AddRace.DroppedForGood | cmd/frppc/frpcclient/controller.go:18-43 | A handler that was taken out, deleted or overwritten is never found under the pair again. |
| AddRace.OrphanedIff | cmd/frppc/frpcclient/controller.go:18-104 | For each handler, under every interleaving of Add, Get, Stop, Delete, StopAll, DeleteByClient and DeleteAll at a pair, each split into its reads and writes, detached inner maps included: with all calls over it is orphaned if and only if, on the schedule, the next step at its inner map overwrites or deletes it, or there is none and that map was detached. |
| AddRace.NoOrphansIff | cmd/frppc/frpcclient/controller.go:18-104 | So no handler is orphaned if and only if the schedule leaves none behind. |
| AddRace.NoOrphansIffGuarded | cmd/frppc/frpcclient/controller.go:18-104 | When requests read or delete from an inner map before it is detached: no handler is orphaned if and only if nothing is detached between the first and the last step of an Add, and between each store and the next overwriting, deleting or detaching somebody reads or takes out what was stored. |
| AddRace.OrphanIffOverlap | cmd/frppc/frpcclient/controller.go:18-104 | The special case of Adds and stop requests, the latter one after the other, with no other request stopping or deleting: no handler is orphaned if and only if no Add took between another's take and store, and no Add overlapped a stop request. |
| AddRace.AddsAlone | cmd/frppc/frpcclient/controller.go:18-24 | Calls of Add alone: no handler is orphaned if and only if no two overlap. |
| AddRace.TwoRecreationsOrphan | cmd/frppc/frpcclient/rpc_pull_config.go:118-131 | A failing run: two pulls recreate a pair, their Adds one after the other and no stop request in sight; both stop the old handler, and the second Delete removes the first one's new handler unread. |
| AddRace.RescuedRun | cmd/frppc/frpcclient/controller.go:18-34 | A run in which two Adds overlap and nobody is orphaned, because another request reads the first handler before the second call stores: overlapping alone does not decide it. |
| AddRace.RacingAddsOrphan | cmd/frppc/frpcclient/controller.go:18-24 | A failing run: two calls that both take before either stores. |
| AddRace.AddInsideStopOrphans | cmd/frppc/frpcclient/rpc_stop_frpc.go:12-13 | A failing run: a whole Add between StopAll and DeleteAll. |
| AddRace.StopInsideAddOrphans | cmd/frppc/frpcclient/controller.go:98-104 | A failing run: a whole stop request between the first and the last step of an Add, which then stores into a map that nothing leads to. |
| Services.Service.constructor | cmd/frppc/frpcclient/service.go:44-63 | A new service has an empty registry and has built no handler. |
| Services.Service.NewClientHandler | cmd/frppc/frpcclient/handler.go:19-78 | A handler is built exactly when frp accepts what is left of the configuration, and every field of it is stated: what is served are exactly the tunnels that frp finds valid, each from its place in the delivered list and in that order. |
| Services.Service.StopHandler | cmd/frppc/frpcclient/rpc_pull_config.go:120 | Stopping one handler on the heap changes that handler alone in the registry's meaning. |
| Services.Service.RunBegins | cmd/frppc/frpcclient/handler.go:80-89 | The run of a handler gets in; only its flag changes. |
| Services.Service.RunEnds | cmd/frppc/frpcclient/handler.go:91-96 | It is over; only its flag changes. |
| Services.Service.DeleteHandler | cmd/frppc/frpcclient/rpc_pull_config.go:121 | Deleting a stopped handler removes its pair and changes no handler. |
| Services.Service.RemoveHandler | cmd/frppc/frpcclient/rpc_pull_config.go:119-122 | The registered handler of a pair is stopped and its pair removed; otherwise nothing happens. |
| Services.Service.AddHandler | cmd/frppc/frpcclient/controller.go:18-24 | Adding in a free place leaves the states of all handlers alone. |
| Services.Service.RegisterHandler | cmd/frppc/frpcclient/rpc_pull_config.go:128 | Registering in a free place adds that pair and displaces nothing. |
| Services.Service.LaunchHandler | cmd/frppc/frpcclient/rpc_pull_config.go:129 | Only the registered handler is launched, once more. |
| Services.Service.InstallHandler | cmd/frppc/frpcclient/rpc_pull_config.go:128-129 | The new handler is registered in a free place and launched once. |
| Services.Service.RecreateHandler | cmd/frppc/frpcclient/rpc_pull_config.go:118-131 | On the heap, recreating does what the registry value says: the old handler is stopped and removed even when the new one cannot be built. |
| Services.Service.StopByClient | cmd/frppc/frpcclient/rpc_pull_config.go:46-50 | Stops the handlers of a client, and keeps them registered. |
| Services.Service.DeleteByClient | cmd/frppc/frpcclient/controller.go:45-47 | Removes the pairs of a client. |
| Services.Service.StopAll | cmd/frppc/frpcclient/controller.go:86-96 | Every registered handler is stopped, and no other changed. |
| Services.Service.StopAndDelete | cmd/frppc/frpcclient/rpc_stop_frpc.go:9-18 | StopAll, then DeleteAll: everything registered is stopped and the registry is empty. |
| Services.Service.HandleStop | cmd/frppc/frpcclient/rpc_stop_frpc.go:9-18 | The stop request does just that. |
| Services.Service.PullLeaf | cmd/frppc/frpcclient/rpc_pull_config.go:97-115 | A delivered configuration updates the handler in place only when its common part is the same and it is running; otherwise it is recreated. |
| Services.Service.UpdateHandler | cmd/frppc/frpcclient/rpc_pull_config.go:114 | The same handler object goes on, with the delivered lists. |
| Services.Service.HandleUpdate | cmd/frppc/frpcclient/rpc_update_tunnel.go:12-56 | The pushed twin: it does not look at whether the handler runs, and a configuration that does not load changes nothing. |
| Services.Service.RemoveClient | cmd/frppc/frpcclient/rpc_pull_config.go:57-58 | Stops and removes all handlers of one client. |
| Services.Service.PruneChildren | cmd/frppc/frpcclient/rpc_pull_config.go:52-61 | The pass walks the listed ids that are not registered, as the first half of the difference says. |
| Services.Service.PullEach | cmd/frppc/frpcclient/rpc_pull_config.go:64-74 | The loop over children refines the fold of their pulls, skipping the client itself and ignoring errors. |
| Services.Service.PullConfigForID | cmd/frppc/frpcclient/rpc_pull_config.go:23-116 | For every master under which the recursion ends, the method on nested maps and handlers refines the recursive pull on values; a service that does not run changes nothing. |
| Registry.FilterSelects | cmd/frppc/frpcclient/handler.go:30-43 | The filter keeps exactly the accepted tunnels, each at an increasing position of the delivered list, and leaves none out. |
| Registry.ValidatedOften | cmd/frppc/frpcclient/handler.go:30-43 | Of what is left of a configuration: each valid tunnel occurs as often as it was delivered, no other occurs, and a configuration with valid tunnels only is left unchanged. |
| Registry.ValidatedOnce | cmd/frppc/frpcclient/handler.go:30-43 | There is only one thing that can be left, so whether a handler can be built depends on nothing else. |
| Registry.ByNameIsLast | cmd/frppc/frpcclient/handler.go:72-77 | Of several tunnels with one name, the name leads to the last. |
| Registry.ByNameHasNames | cmd/frppc/frpcclient/handler.go:72-77 | The names in the map are exactly those of the delivered tunnels. |
| Registry.PullIsFold | cmd/frppc/frpcclient/rpc_pull_config.go:23-116 | A recursive pull that ends has the effect of its local steps, taken in preorder over the clients it reaches. |
| Registry.DeeperIsSame | cmd/frppc/frpcclient/rpc_pull_config.go:64-75 | Where the recursion is cut off makes no difference once it ends. |
| Registry.PullChildrenIsFold | cmd/frppc/frpcclient/rpc_pull_config.go:64-75 | The same for the loop over children. |
| RegistryLaws.RecreateKeeps | cmd/frppc/frpcclient/rpc_pull_config.go:118-131 | Recreating keeps every handler registered once or stopped. |
| RegistryLaws.ReconcileKeeps | cmd/frppc/frpcclient/rpc_pull_config.go:97-115 | So does reconciling one pair. |
| RegistryLaws.LocalKeeps | cmd/frppc/frpcclient/rpc_pull_config.go:23-116 | So does a local step, whatever the master answers. |
| RegistryLaws.ServeKeeps | cmd/frppc/frpcclient/rpc_pull_config.go:23-131 | So does every request, and handlers starting and ending on their own. |
| RegistryLaws.NeverOrphans | cmd/frppc/frpcclient/rpc_pull_config.go:118-131 | No orphan tunnels: over every sequence of pulls, pushed updates and stop requests, each handler ever built is registered under exactly one pair or was told to stop. |
| RegistryLaws.StopLeavesNothing | cmd/frppc/frpcclient/rpc_stop_frpc.go:12-13 | After a stop request or a shutdown every handler ever built was told to stop. |
| RegistryLaws.ReconcileTouchesPair | cmd/frppc/frpcclient/rpc_pull_config.go:97-131 | Reconciling a pair leaves every other pair, and the state of every other handler, registered or not, as it was. |
| RegistryLaws.LocalTouchesOnlyItself | cmd/frppc/frpcclient/rpc_pull_config.go:31-116 | A local step touches only entries under its own client, and only one pair unless the answer stops the client; a failed call or load touches nothing, and a failed build only removes. |
| RegistryLaws.PushTouchesOnlyItself | cmd/frppc/frpcclient/rpc_update_tunnel.go:12-56 | A pushed update touches one pair only: no other pair comes or goes, and no other handler's state changes; one that does not load changes nothing. |
| RegistryLaws.LeafConverges | cmd/frppc/frpcclient/rpc_pull_config.go:89-131 | A leaf pull succeeds exactly when it keeps a running handler or a new one can be built, and then the pair serves the delivered configuration: all of it on a kept handler, the valid part on a new, launched one. A handler that is not kept is stopped in either case, and nothing else changes. |
| RegistryLaws.PushConverges | cmd/frppc/frpcclient/rpc_update_tunnel.go:23-55 | A pushed update succeeds exactly when it keeps a handler with the same common part or a new one can be built, and then the pair serves the pushed configuration; a handler it replaces is stopped. |
| RegistryLaws.PushMayKeepStopped | cmd/frppc/frpcclient/rpc_update_tunnel.go:39-45 | What a push keeps may be dead: after one that succeeds, the handler is stopped exactly when it was kept and stopped before, running exactly when it was kept and running, and launched by the push exactly when it was not kept. |
| RegistryRuns.PushKeepsDead | cmd/frppc/frpcclient/rpc_update_tunnel.go:39-45 | The run that shows it: stopped by the master, its run over, pushed again. |
| RegistryLaws.OtherServersStay | cmd/frppc/frpcclient/rpc_pull_config.go:95-101 | After a leaf pull the client has a handler under some other server exactly when it had one before. |
| RegistryRuns.ServerChangeKeepsOld | cmd/frppc/frpcclient/rpc_pull_config.go:95-101 | The run that shows it: a client moved from one server to another keeps both handlers, neither told to stop. |
| RegistryLaws.StoppedAnswerStops | cmd/frppc/frpcclient/rpc_pull_config.go:46-50 | A client that the master marks stopped has every one of its handlers stopped and none unregistered; others are not touched. |
| RegistryLaws.LeafMayKeepStopped | cmd/frppc/frpcclient/rpc_pull_config.go:108-115 | Exactly when such a pull leaves a stopped handler in place: when it was told to stop and has not ended yet. |
| RegistryRuns.PullKeepsStopped | cmd/frppc/frpcclient/rpc_pull_config.go:108-115 | The run that shows it: pulled, running, stopped by the master, pulled again. |
| RegistryLaws.LeafIsStable | cmd/frppc/frpcclient/rpc_pull_config.go:113-115 | While the handler runs, a second identical pull changes nothing at all. |
| RegistryLaws.ElsewhereSpares | cmd/frppc/frpcclient/rpc_pull_config.go:23-131 | A pull that does not reach a client, or whose answer for it neither stops it nor delivers a configuration for the pair's server, a push for another pair, and runs of other handlers spare a pair's handler and its state. |
| RegistryLaws.FoldUpdates | cmd/frppc/frpcclient/rpc_pull_config.go:64-115 | A pull that delivers a configuration for a pair whose handler runs with the same common part leaves that handler in place, updated exactly if the pull reaches its client, directly or through a parent, however often. |
| RegistryLaws.PullsSettle | cmd/frppc/frpcclient/rpc_pull_config.go:64-115 | Over a run of the service: from a pull that reaches a client, directly or as somebody's child, and keeps its running handler on, for as long as only pulls that deliver the same for it, through whichever client they come, and requests elsewhere happen, the pair keeps that very handler as the first pull left it, its name maps included. |
| RegistryLaws.PruneIsIdentity | cmd/frppc/frpcclient/rpc_pull_config.go:52-61 | As written, the pass over expired children changes nothing, whatever the master lists. |
| RegistryLaws.PruneMeetsIntent | cmd/frppc/frpcclient/rpc_pull_config.go:52-61 | So only listed clients stay registered exactly when that was so before. |
| RegistryRuns.ExpiredChildStays | cmd/frppc/frpcclient/rpc_pull_config.go:52-61 | The run that shows it: a registered child that is no longer listed stays, and runs on. |
| RegistryLaws.UnlistedArePruned | cmd/frppc/frpcclient/rpc_pull_config.go:52-61 | The variant with the other half of the difference removes, and stops, exactly the walked clients that are not listed. |
| PullTermination.EndsIfShallow | cmd/frppc/frpcclient/rpc_pull_config.go:64-75 | The recursion ends within a depth exactly when the child relation, self-listings aside, is that shallow. |
| PullTermination.RankedPullEnds | cmd/frppc/frpcclient/rpc_pull_config.go:64-75 | With a rank function the recursion ends, no deeper than the rank of where it starts. |
| PullTermination.PullsEndIffRanked | cmd/frppc/frpcclient/rpc_pull_config.go:64-75 | Pulls of all clients end if and only if the child relation has a rank function. |
| PullTermination.MutualChildrenNeverEnd | cmd/frppc/frpcclient/rpc_pull_config.go:64-75 | Two clients that list each other are pulled for ever: only a client's own id is skipped. |
| PullReach.ListedAreReached | cmd/frppc/frpcclient/rpc_pull_config.go:31-75 | Every listed child of a client that exists and is not stopped is pulled, with all below it, the client itself excepted. |
| PullReach.OthersReachNobody | cmd/frppc/frpcclient/rpc_pull_config.go:31-75 | An error, no client, a stopped client, or a client that lists at most itself has nobody else pulled. |
| PullReach.ReachedInOrder | cmd/frppc/frpcclient/rpc_pull_config.go:64-75 | Parents are pulled before their children, and children in the order in which they are listed. |
| PullReach.ReachesDescendants | cmd/frppc/frpcclient/rpc_pull_config.go:31-75 | A pull that ends reaches exactly the clients to which a chain of answers leads, each one listed by a client that exists and is not stopped. |
| PullReach.AnswerOutcome | cmd/frppc/frpcclient/rpc_pull_config.go:31-95 | Which answers are errors and which change nothing: a failed call and a configuration that does not load are the only errors that need no handler, and errors of children are not reported. |
| PullReach.RejectedPush | cmd/frppc/frpcclient/rpc_update_tunnel.go:12-30 | A pushed configuration that does not load is an error and changes nothing. |
| PullReach.PullDelivers | cmd/frppc/frpcclient/rpc_pull_config.go:31-131 | After a pull that ends, for every client at the end of such a chain with a configuration: the pair keeps its running handler with all that was delivered, or has a new one with the valid part, launched once, or none if none can be built. |
| PullReach.ChildGetsItsConfig | cmd/frppc/frpcclient/rpc_pull_config.go:64-131 | In particular every listed child with a configuration for which a handler can be built serves it afterwards, whatever its place among the children. |
| HandlerRuns.Runner.constructor | cmd/frppc/frpcclient/handler.go:72-77 | A new handler is not running. |
| HandlerRuns.Runner.BeginRun | cmd/frppc/frpcclient/handler.go:80-89 | The first critical section of Run lets one caller in and makes a new done channel; others are turned away and change nothing. |
| HandlerRuns.Runner.EndRun | cmd/frppc/frpcclient/handler.go:91-96 | The deferred section clears the flag and closes the channel the handler holds then. |
| HandlerRuns.Runner.Running | cmd/frppc/frpcclient/handler.go:113-117 | Reads the flag. |
| HandlerRuns.EntersIfIdle | cmd/frppc/frpcclient/handler.go:80-89 | A call on a handler that is not running gets in with a channel of its own; on one that is running it is over and changes nothing. |
| HandlerRuns.LeavesIdle | cmd/frppc/frpcclient/handler.go:91-96 | A call that leaves clears the flag. |
| HandlerRuns.CallGoesOn | cmd/frppc/frpcclient/handler.go:80-89 | Run can be called at any time, and a call never waits for another. |
| HandlerRuns.OneRunAtATime | cmd/frppc/frpcclient/handler.go:80-101 | For any number of goroutines, at most one is inside the frp client, and the flag is true exactly while one is. |
| HandlerRuns.ClosedByItsMaker | cmd/frppc/frpcclient/handler.go:87-96 | Each done channel is closed by the run that made it, while it is open, and by no other step. |
| HandlerRuns.AllClosedInTheEnd | cmd/frppc/frpcclient/handler.go:87-96 | When no call is left, every done channel was closed exactly once. |
| Listeners.Listener.constructor | haokun/grpc/support/wsgrpc/listener.go:34-40 | A new listener has an empty queue with the given number of slots, possibly none, and is open. |
| Listeners.Listener.Enqueue | haokun/grpc/support/wsgrpc/listener.go:90-104 | Succeeds exactly when the listener is open and an Accept is waiting or there is room; then the connection has gone straight to that Accept, or last into the queue, and a failure changes nothing. |
| Listeners.Listener.Close | haokun/grpc/support/wsgrpc/listener.go:54-76 | An uninterrupted call is the run of its steps in the interleaved machine: all that was queued is drained in order, and both channels are closed once; a second call changes nothing. |
| Listeners.EnqueueHandsOver | haokun/grpc/support/wsgrpc/listener.go:90-104 | The same of every send in the machine. |
| Listeners.TakenFromFront | haokun/grpc/support/wsgrpc/listener.go:42-76 | Every other step takes the oldest queued connection or none, for an Accept or for the drain, and loses nothing else. |
| Listeners.CloseIsCalled | haokun/grpc/support/wsgrpc/listener.go:54-59 | Close can be called at any time, and goes on when nobody else holds the mutex. |
| Listeners.OnlyTheMutexIsWaitedFor | haokun/grpc/support/wsgrpc/listener.go:42-104 | With nobody inside Enqueue or Close, a connection can be enqueued or handed to a waiting Accept; and an Accept can take a queued one at any time, without the mutex. |
| Listeners.AcceptInsideClose | haokun/grpc/support/wsgrpc/listener.go:42-76 | A run in which an Accept gets a connection in the middle of a Close that drains the next one. |
| Listeners.StepInv | haokun/grpc/support/wsgrpc/listener.go:42-104 | Every step of Enqueue, Accept and the drain keeps the order of connections, the single holder of the mutex and the number of closes. |
| Listeners.EveryConnOnce | haokun/grpc/support/wsgrpc/listener.go:42-104 | In every interleaving each enqueued connection is in exactly one place: returned by one Accept, closed by the drain, or queued; removals come in the order of enqueueing, and each channel is closed at most once, the queue's only when empty. |
| Listeners.NoSendAfterClose | haokun/grpc/support/wsgrpc/listener.go:94-103 | An Enqueue that sends finds the queue's channel open, and once the listener is marked closed it changes nothing. |
| Listeners.ClosedForGood | haokun/grpc/support/wsgrpc/listener.go:42-52 | After a Close is over every Accept fails and nothing is left behind. |
| Listeners.AcceptFailsIfClosed | haokun/grpc/support/wsgrpc/listener.go:42-52 | An Accept fails from the moment the done channel is closed, and only on a listener marked closed; with nobody inside Enqueue or Close, exactly on such a one. |
| Listeners.CloseFinishes | haokun/grpc/support/wsgrpc/listener.go:64-75 | A Close always finishes: each of its steps leaves less to do, and nothing that runs meanwhile leaves more. |
| StreamConns.ReadFrom | haokun/grpc/support/wsgrpc/gorilla_conn.go:30-46 | A read returns at most as many bytes as were asked for. |
| StreamConns.Conn.constructor | haokun/grpc/support/wsgrpc/gorilla_conn.go:25-27 | A new connection has nothing left over. |
| StreamConns.Conn.Read | haokun/grpc/support/wsgrpc/gorilla_conn.go:30-46 | The method on the leftover buffer and the caller's array returns what the value function says and leaves the rest of the array alone. |
| StreamConns.Conn.Write | haokun/grpc/support/wsgrpc/gorilla_conn.go:48-57 | Writes are one binary message each, whole or not at all. |
| StreamConns.ServerConn.constructor | haokun/grpc/support/wsgrpc/fiber_conn.go:45-50 | The server's end starts open. |
| StreamConns.ServerConn.Close | haokun/grpc/support/wsgrpc/fiber_conn.go:95-102 | The socket and the done channel are closed once, and only the first call reports an error. |
| StreamConns.ReadLosesNothing | haokun/grpc/support/wsgrpc/fiber_conn.go:66-82 | Whatever a read meets, the bytes it returns come off the front of the stream and the rest is still to come. |
| StreamConns.ReadMakesProgress | haokun/grpc/support/wsgrpc/fiber_conn.go:66-82 | A read that asks for data returns at least one byte and no error exactly when a byte comes before the first empty, foreign or broken message; the end of the file is reported exactly at an empty message. |
| StreamConns.ReadServesPiece | haokun/grpc/support/wsgrpc/fiber_conn.go:66-82 | A read returns as much as it can of what is left over, or else of the next message, and keeps the rest; it takes one message exactly when nothing is left over; and which error it reports is stated for every kind of message. |
| StreamConns.ReadFullReaches | haokun/grpc/support/wsgrpc/gorilla_conn.go:30-46 | How far a read-until-n loop gets, and when it reports an error. |
| StreamConns.ReadFullRebuilds | haokun/grpc/support/wsgrpc/gorilla_conn.go:30-46 | A read-until-n loop ends, and rebuilds exactly the first n bytes if and only if no such message comes before the n-th byte. |
| StreamConns.AllWithinReach | haokun/grpc/support/wsgrpc/gorilla_conn.go:30-57 | If every message is non-empty data, every byte written is within reach. |
| StreamConns.RoundTrip | haokun/grpc/support/wsgrpc/gorilla_conn.go:30-57 | However writes and reads of any size alternate, what was read is a prefix of what was written and the rest is on its way. |
| StreamConns.AllWritten | haokun/grpc/support/wsgrpc/gorilla_conn.go:48-57 | What the link counts as written is what the writes of the run wrote, in order. |
| StreamConns.ReadsGetEverything | haokun/grpc/support/wsgrpc/gorilla_conn.go:30-57 | If every message on its way is non-empty data, as many reads of any size as there are bytes get everything that was written. |
| StreamConns.EmptyWriteEndsFile | haokun/grpc/support/wsgrpc/gorilla_conn.go:45-48 | An empty write makes the reader see the end of the file although more data follows. |
| BinaryReplacement.HiddenByOwnName | utils/selfupgrade/upgrade.go:197 | An entry is skipped as hidden by the last component of its name alone. |
| BinaryReplacement.BaseNameAt | utils/selfupgrade/upgrade.go:197 | The last component is found in front of any number of slashes; a name of slashes only is not hidden, and an empty one is. |
| BinaryReplacement.DeliveredByName | utils/selfupgrade/upgrade.go:186-215 | For every archive that can be read to its end, on its entries' kinds and names: exactly one regular file whose own name does not begin with a dot is delivered, wherever it stands; with none or several nothing is. |
| BinaryReplacement.ScanStep | utils/selfupgrade/upgrade.go:188-209 | What the next header says: a damaged archive delivers nothing, the end of the archive decides between one binary and none, a skipped entry changes nothing. |
| BinaryReplacement.ScanWanted | utils/selfupgrade/upgrade.go:197-208 | A second wanted entry means the archive has several; the first is the only one it can deliver. |
| BinaryReplacement.Disk.CreateTemp | utils/selfupgrade/upgrade.go:179-182 | A new, empty, non-executable file, or nothing. |
| BinaryReplacement.Disk.Copy | utils/selfupgrade/upgrade.go:204-207 | Appends the data, or part of it when it fails; every state on the way differs at this path only. |
| BinaryReplacement.Disk.MakeExecutable | utils/selfupgrade/upgrade.go:216-218 | Only the mode of that file changes. |
| BinaryReplacement.Disk.Remove | utils/selfupgrade/upgrade.go:184 | Removes that file, or nothing. |
| BinaryReplacement.Disk.OpenForWriting | utils/selfupgrade/upgrade.go:239-242 | Empties or creates that file, or does nothing. |
| BinaryReplacement.Disk.Rename | utils/selfupgrade/upgrade.go:227-229 | One step puts a file in the place of another, or does nothing. |
| BinaryReplacement.Extract | utils/selfupgrade/upgrade.go:186-215 | Succeeds exactly when the archive can be read to its end, holds exactly one regular, non-hidden entry, and writing works; then the temporary file is that entry. Of an archive that can be read, the error says whether there were several or none. |
| BinaryReplacement.CopyFile | utils/selfupgrade/upgrade.go:233-248 | Succeeds exactly when no step fails; in every failure case the whole new state is stated, a broken copy included, and no other file is touched at any moment. |
| BinaryReplacement.LastBackupStays | utils/selfupgrade/upgrade.go:221-226 | Exactly when the last backup is as it was in the end: none was asked for, the failure came before the backup step, or at it with nothing opened and nothing removed; or the copy, as far as it got, is the same file again. |
| BinaryReplacement.SucceedsByName | utils/selfupgrade/upgrade.go:142-231 | With nothing failing, a replacement succeeds exactly when the archive can be read and holds exactly one regular file whose own name does not begin with a dot, and installs that file's data. |
| BinaryReplacement.BackupLost | utils/selfupgrade/upgrade.go:222-225 | An input for which it is not: the last backup is removed and the new one cannot be opened. |
| BinaryReplacement.LosesBackup | utils/selfupgrade/upgrade.go:142-231 | The same replacement, step by step: it fails, the executable is as it was, and the backup is gone. |
| BinaryReplacement.BackUp | utils/selfupgrade/upgrade.go:221-226 | The executable and the staged file stay as they are, and what is under the backup's name afterwards is stated for every failure. |
| BinaryReplacement.Stage | utils/selfupgrade/upgrade.go:186-218 | Until the new binary is ready, nothing but the temporary file changes. |
| BinaryReplacement.Install | utils/selfupgrade/upgrade.go:184-230 | While the temporary file exists every state is safe, and only the rename changes the executable. |
| BinaryReplacement.ReplaceBinary | utils/selfupgrade/upgrade.go:142-231 | Crash and error safety: in every state the executable is all old or all new, in the second case with a complete backup if asked for; success exactly when the archive delivers one binary and no step that matters fails; an error leaves the executable as it was, the temporary file only if removing it fails, and under the backup's name exactly what the backup step got done. |
| LogStreams.Channels.Send | cmd/frppc/frpcclient/rpc_stream_log.go:104-109 | A send that never waits: a full channel drops the line, any other takes it last. |
| LogStreams.Sink.constructor | cmd/frppc/streamlog/sink.go:19-25 | A new sink points at nothing. |
| LogStreams.Sink.Attach | cmd/frppc/streamlog/sink.go:27-31 | The sink points at that channel. |
| LogStreams.Sink.Detach | cmd/frppc/streamlog/sink.go:33-37 | The sink points at nothing. |
| LogStreams.Sink.Handle | cmd/frppc/streamlog/sink.go:69-83 | A log entry goes to the attached channel, if any, without waiting. |
| LogStreams.RunPump | cmd/frppc/frpcclient/rpc_stream_log.go:112-138 | The pump sends the queued lines in order up to the event that makes it return, closes its done channel exactly then, and loses at most the line whose sending failed. |
| LogStreams.LogService.constructor | cmd/frppc/frpcclient/service.go:44-63 | No session is held. |
| LogStreams.LogService.WriteStreamLog | cmd/frppc/frpcclient/rpc_stream_log.go:95-110 | A line goes to the held session's channel, if any. |
| LogStreams.LogService.StopStreamLog | cmd/frppc/frpcclient/rpc_stream_log.go:68-93 | The held session is given up, detached and cancelled even when waiting for its pump times out, and no other session changes; a call without interruption is the run of the machine's steps. |
| LogStreams.LogService.OpenSession | cmd/frppc/frpcclient/rpc_stream_log.go:39-64 | Makes a session that is held, attached, pumped and greeted, or, if the master is not reached, a cancelled one that nobody holds. |
| LogStreams.StopRuns | cmd/frppc/frpcclient/rpc_stream_log.go:68-93 | Where the steps of a stop lead, one after the other. |
| LogStreams.StartRuns | cmd/frppc/frpcclient/rpc_stream_log.go:39-64 | Where the steps of a start lead from there. |
| LogStreams.LogService.StartStreamLog | cmd/frppc/frpcclient/rpc_stream_log.go:34-66 | The session before is cancelled in any case; only if its pump ended in time and the master is reached is there a new one, attached, with the greeting in its channel; a call without interruption is the run of the machine's steps. |
| LogStreams.LogService.EndService | cmd/frppc/frpcclient/rpc_stream_log.go:39 | Ending the service's context cancels every session. |
| LogSessions.RequestInv | cmd/frppc/frpcclient/rpc_stream_log.go:34-93 | Every step of a start or stop request keeps the invariant, timeouts and an unreachable master included. |
| LogSessions.PumpInv | cmd/frppc/frpcclient/rpc_stream_log.go:112-138 | So does every step of a pump. |
| LogSessions.WriteInv | cmd/frppc/streamlog/sink.go:76-82 | So does a send by a goroutine that read the channel earlier. |
| LogSessions.StepInv | cmd/frppc/frpcclient/rpc_stream_log.go:34-138 | So does every step, in any interleaving of goroutines with requests taken one at a time. |
| LogSessions.OneLiveSession | cmd/frppc/frpcclient/rpc_stream_log.go:34-93 | At most one session is not cancelled; it is the one the service or its request holds, and the sink points at it or at nothing. |
| LogSessions.RequestOutcome | cmd/frppc/frpcclient/rpc_stream_log.go:34-93 | A request leaves no live session behind, or, after a start that went through, one that is held, attached and pumped, with its greeting on the way to its channel. |
| LogSessions.LogIsOnItsWay | cmd/frppc/streamlog/sink.go:69-83 | A goroutine that logs while the sink is attached is on its way to that channel with its line, and otherwise does nothing. |
| LogSessions.WriteIsOffered | cmd/frppc/streamlog/sink.go:76-82 | Its send is accepted, as the last line, exactly if fewer than 256 are queued, and is over in one step. |
| LogSessions.PumpOutcome | cmd/frppc/frpcclient/rpc_stream_log.go:112-138 | A pump takes the oldest line and sends it; it ends, closing its done channel once more, when a send fails or the stream is done. |
| LogSessions.RequestsGoOn | cmd/frppc/frpcclient/rpc_stream_log.go:34-93 | Logging, sending and the end of the service wait for nobody, and a request in progress always has a step to take, a timeout at the latest. |
| LogSessions.AcceptedIsSentTo | cmd/frppc/streamlog/sink.go:69-83 | Over every run, what a channel accepted is, in order, every line sent to it while fewer than 256 were queued: a line is dropped only at a full channel. |
| LogSessions.SentInOrder | cmd/frppc/frpcclient/rpc_stream_log.go:112-138 | What a pump sent is an in-order prefix of what its channel of at most 256 slots accepted, and its done channel is closed once. |
| LogSessions.OnePump | cmd/frppc/frpcclient/rpc_stream_log.go:86-92 | As long as no stop timed out, at most one pump runs. |
| LogSessions.StopWaitsForPump | cmd/frppc/frpcclient/rpc_stream_log.go:81-92 | While a stop waits, the pump was started and its context is cancelled: it has ended, and the stop goes on, or it has a step to take. |
| LogSessions.StopWaitIsBounded | cmd/frppc/frpcclient/rpc_stream_log.go:86-138 | A stop waits for a bounded number of pump steps, whatever else runs meanwhile: two for each queued line, and a few for what is in hand or on its way. |
| LogSessions.ClosedForGood | cmd/frppc/streamlog/sink.go:69-83 | Once a session is given up and the goroutines that had read its channel are done, it never accepts another line. |
| Shutdowns.Agent.constructor | cmd/frppc/frpcclient/service.go:44-63 | An agent starts with its parts and is not shut down. |
| Shutdowns.Agent.SubmitEvent | cmd/frppc/frpcclient/rpc_push_event.go:58-69 | The lifecycle event is submitted like any other, unless the agent does not run. |
| Shutdowns.Agent.StopEvents | cmd/frppc/frpcclient/service.go:107 | Stopping the debouncer adds to each key's trace exactly what it had buffered. |
| Shutdowns.Agent.FlushEvents | cmd/frppc/frpcclient/service.go:106-107 | Both, one after the other; nothing stays pending. |
| Shutdowns.Agent.EndLogs | cmd/frppc/frpcclient/service.go:108-113 | All log sessions are cancelled and none is held; a pump that does not end in time is reported. |
| Shutdowns.Agent.EndTunnels | cmd/frppc/frpcclient/service.go:114-117 | Every registered handler is stopped and the registry emptied. |
| Shutdowns.Agent.CloseConnection | cmd/frppc/frpcclient/service.go:118-122 | The connection, if the agent has one, is closed. |
| Shutdowns.Agent.CloseDown | cmd/frppc/frpcclient/service.go:102-122 | The first shutdown does all of this in order: every event is emitted before the log session is ended, that before the tunnels are stopped, and all of it before the connection is closed; it reports whether anything failed. The first of these holds of a debouncer whose calls run to completion: with a flush in flight it holds exactly when StopLeavesCarried finds no thread that carries events. |
| Shutdowns.Agent.Shutdown | cmd/frppc/frpcclient/service.go:95-125 | It runs once: a second call changes nothing and reports no error. The first is in the order of CloseDown, with the same proviso. |

## Left out

- frp itself (validation, configuration loading and templating, running and closing a client): a validity predicate, a loaded configuration, and flags for running and stopped.
- gRPC, WebSocket framing, TLS, dialing and protobuf: sequences of messages only.
- JSON text: payloads are JSON values or text that does not parse; numbers in a text are integers, and field names are valid UTF-8.
- Terminal sessions, one-time codes, system services, process restarts, detached commands, the framework's bootstrap, id and URL checks, scripts: foreign processes, wiring, or short branches that would only add easy members.
- RegistryLaws.NeverOrphans: takes each pull, update or stop as one operation, because they are not one critical section; `AddRace` says what requests that interleave do at one pair.
- AddRace.OrphanedIff: is about being told to stop, at one pair. The launch that follows an Add is not a step of that machine: it launches what it finds registered, so an orphan may never have been launched, and another handler may be launched twice.
- Requests read the field that holds the outer map while DeleteAll assigns it, a data race in the Go memory model: either the old map is read or the new one.
- DebouncerSafety.StopLeavesCarried: does not say that the threads it finds will emit before the process ends, and nothing in the code makes them.
- Handlers that are nil: the only caller of Add passes handlers that were built.
- A handler's frp client starting and ending: in the registry these are steps of their own; `HandlerRuns` models Run and Running exactly. A handler's fields are one record value that its methods update.
- Range of the map as a higher-order method: each range is the loop it performs, in any order of keys. A nil map reads as the empty one. Len, Values, Clone and the other unused methods of the map are not modelled.
- The debug-mode copy of a pulled configuration, feature gates and logging.
- Services.Service.PullConfigForID: says nothing of a pull that never ends; that it needs no more than an end is `PullTermination.PullsEndIffRanked` and `PullTermination.EndsIfShallow`.
- Nil connections in the listener's queue.
- StreamConns.Conn.Read: blocking is not modelled; a read past the last message fails. Deadlines and addresses of connections are left out.
- BinaryReplacement.ReplaceBinary: resolving the path, the HTTP request and the gzip header are one answer, available or not. Of a file's mode only "executable" is kept, and a umask that removes it is not considered. Other processes writing to the same directory, links at the backup's path and loss of power before data reaches the disk (the code does not sync) are not considered.
- Start and stop requests for the log stream that overlap: they are taken one at a time, and Shutdown's stop too; its timeout is an answer from outside.
- LogStreams.RunPump: with no line queued a pump just goes on waiting; the closing of the stream at its end is not modelled.
- Blank messages to writeStreamLog are never sent by its only caller, which always has a greeting.
- Shutdowns.Agent.CloseDown: takes the debouncer whose calls run to completion, so a flush past its lock, which may push its aggregate after the connection is closed, is absent; `DebouncerSafety.StopLeavesCarried` says exactly when there is one.
- Shutdowns.Agent.Shutdown: the same. Also the debouncer exists from the start, although the agent makes it on first use, and the clock does not advance during a shutdown.
