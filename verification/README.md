# Routing, fencing and lifecycle of DatabasesEverywhere

A Dafny model of the daemon's hard core, and proofs about it. The daemon keeps
an in-memory store of database instances, from which a gateway resolves client
connections; it closes instances to traffic ("fences" them), drains sessions,
reconciles instances with a container engine, and writes a rotating log.

| file | what it holds |
|---|---|
| `Basics.dfy`, `Metadata.dfy` | optional values, bytes, sums over maps; the instance metadata that decides routing and quotas |
| `RouteView.dfy` | the meaning of the instance store: a view without route indexes, every operation on it, 64-bit revisions |
| `RouteHistory.dfy` | what holds over whole histories of store operations |
| `InstanceState.dfy` | the store as a class with its ten route indexes, proved to refine the view |
| `SessionRegistry.dfy`, `TenantFencing.dfy` | the tenant session registry, and the fence as its caller writes it |
| `FenceProtocol.dfy` | connection attempts, fences, writers and disconnects interleaved at lock granularity |
| `Admission.dfy` | check, count, check again against close and wait for zero: gateway supervisor and daemon shutdown |
| `EventCoalescer.dfy`, `Reconcile.dfy` | container events and what reconciliation may store and publish |
| `RollingLog.dfy`, `LogRedactor.dfy` | the log writer over a failing file system; streaming redaction |
| `InstanceLocks.dfy`, `ConnectionLimiter.dfy`, `TwoLevelLimits.dfy` | per-instance locks; peer, API and SQL buffer limits |
| `MysqlQuoting.dfy`, `Digests.dfy` | quoting against the server's lexer; the byte strings fed to the digests |

How the parts connect. Every store method is proved to move the ghost `view` by
`RouteView.Apply`; every lookup is proved to answer from the view; the theorems
of `RouteHistory` and `FenceProtocol` are about sequences of `Apply`. The same
holds for the session registry and the functions `Inserted`, `AfterAuth`,
`Flagged` and `Dropped`. Concurrent parts are state machines: each step is one
critical section or one atomic access, a step that is not enabled changes
nothing, and a run is any sequence of steps, so a statement about all runs
covers all interleavings. Atomic accesses are sequentially consistent.

What became a parameter: the container engine's answers, the outcome of every
file-system call, which reconciliation tasks die, the clock, the rate check, how one log record is redacted, and
the hash functions (only the bytes given to them appear). Session ids and mutex
identities are unbounded numbers; container events carry an arrival number that
tells equal ones apart and decides nothing. Route revisions are the 64-bit numbers of the
source: the store counts stamps without bound and `Revision` folds them into 64
bits, skipping zero.

Five properties one might expect are false of the code. The model keeps the
code's behaviour, gives an input for each, and proves exactly when it holds:

* A rebuild of the store restarts the revision counter, so a revision that a
  fence made stale can become current again, at the rebuild
  (`RebuildRevivesRevision`) or with a write after it (`RebuildRevivesLater`). It
  never does exactly when the rebuild used up its number and not for the last
  entry of that instance (`RebuildSafeIff`). The daemon rebuilds
  only through `load_from_storage`, once at start (src/app/daemon/lifecycle.rs:206),
  before it serves connections. Without rebuilds a revision is current exactly
  while its instance is untouched (`CurrentIffUntouched`).
* When two open instances share a key, fencing the later one leaves the earlier
  one open but answering on no key (`SharedKeyStrandsFirst`). An undisturbed
  instance keeps answering exactly while nobody else publishes its key
  (`LastPublicationWins`), and with distinct keys the index is exactly the set
  of open instances (`DistinctKeysAllRouted`, from `EmptyComplete` or
  `LoadedComplete`).
* A fence-preserving upsert is documented not to change reachability
  (src/app/server/state.rs:67). With a shared key it moves the key and can make a
  stranded instance answer (`PreservingMovesSharedKey`); with a shared password a
  new one makes the old password answer with the other instance
  (`PreservingUncoversPassword`). Every answer stays exactly under
  `PreservingKeepsReachabilityIff`; when an unanswered instance starts to be
  answered is `PreservingRevivesIff` for its own upsert and
  `PreservingRevealsOtherIff` for another's.
* An open route to a container just found not isolated can stay open, although
  quarantine fences before it writes (src/app/server/manager.rs:21-23): when an
  event rewrites the quarantine to failed, nothing is fenced first, and the write
  may then fail (`UnisolatedRouteStaysOpen`, `MismatchClosesRouteIff`).
* A drain of gateway connections that read zero is final exactly when the
  supervisor is stopping with the flag already down (`DrainFinalIff`); closing
  admission alone is not enough.

One more depends on the redaction of a record, which is a parameter here: that
nothing follows the truncation marker (`MarkerIsLastIff`). In the source an empty
record gives `redact_log_record` nothing to find or replace
(src/app/utils/redaction.rs:24-34).

## Model

| member | source | states |
|---|---|---|
| `Metadata.ConnectionLimit` | src/app/server/placement/policy.rs:69-72 | exactly shared tenants have a quota: one connection per whole 32 MiB of memory, raised to 4 or cut to 100, so never zero |
| `RouteView.RevisionSteps` | src/app/server/state.rs:507-511 | the wrapping 64-bit counter that skips zero is the unbounded bump count folded by `Revision`, and fits in 64 bits |
| `RouteView.RevisionCollision` | src/app/server/state.rs:507-518 | two revisions are equal if and only if a whole number of counter periods lies between them, so never within 2^64 - 2 bumps |
| `RouteView.ApplyKeepsConsistent` | src/app/server/state.rs:358-373 | every operation keeps pinned within fenced within stored instances, a revision for exactly the stored instances, and every key in force owned by an open instance |
| `RouteView.RunKeepsConsistent` | src/app/server/state.rs:56-99 | the same over every sequence of operations |
| `RouteView.LoadedConsistent` | src/app/server/state.rs:350-356 | a store filled from durable metadata is consistent, unfenced, and has issued one revision per entry |
| `RouteHistory.OpenAfter` | src/app/server/state.rs:358-373 | after each operation its instance is open exactly if the operation publishes eligible metadata: an upsert unless pinned, a preserving one only if it was open, an opening always |
| `RouteHistory.StoredAfterOp` | src/app/server/state.rs:358-373 | what is stored afterwards: the metadata written, the same as before a fence or pin, nothing after a removal |
| `RouteHistory.FenceAfter` | src/app/server/state.rs:430-438 | which operations leave it fenced and which leave it pinned, both ways |
| `RouteHistory.RemovedIsGone` | src/app/server/state.rs:498-505 | a removed instance is stored, fenced, pinned and numbered no more and found by no lookup, and nobody else is affected |
| `RouteHistory.SlotMeans` | src/app/server/state.rs:375-428 | which key an instance answers on, in terms of protocol, username, database and route key |
| `RouteHistory.OnlyFitIsFound` | src/app/server/state.rs:343-347 | in every history a lookup only ever finds an instance that is stored, unfenced, running, meant to run and within its disk limit |
| `RouteHistory.CurrentIffUntouched` | src/app/server/state.rs:102-106 | after any operations short of 2^64 - 1 revisions, a resolved revision is still current if and only if no operation named the instance, and then its metadata is the one resolved, also across removal and re-creation |
| `RouteHistory.StaleMeansNotCurrent` | src/app/server/state.rs:498-518 | a revision the instance has moved past never becomes current again |
| `RouteHistory.RebuildSafeIff` | src/app/server/state.rs:350-356 | for every list of stored entries, a revision issued before a rebuild stays out of date through all operations that may follow, until the restarted counter wraps, if and only if the rebuild used up its number and not for the last entry of that instance |
| `RouteHistory.RebuildRevivesIff` | src/app/server/state.rs:350-356 | at the rebuild itself it is current if and only if its number is the place of the instance's last entry, up to whole counter periods |
| `RouteHistory.RebuildRevivesRevision` | src/app/server/state.rs:51-54 | an input: for every instance, publish, fence, rebuild makes the fenced-off revision current again |
| `RouteHistory.RebuildRevivesLater` | src/app/server/state.rs:51-54 | another: a second revision, out of date at the rebuild, becomes current with the first upsert after it |
| `RouteHistory.FencedIsUnreachable` | src/app/server/state.rs:430-438 | no key lookup, password lookup or revision check reaches a fenced instance |
| `RouteHistory.PinnedUntilUnpinned` | src/app/server/state.rs:92-99 | pinning a stored instance, whatever its state, makes it unreachable through every sequence of operations without an `open_routes` or `remove` of it |
| `RouteHistory.PinnedFenceSurvives` | src/app/server/state.rs:358-366 | the same from any state in which it is pinned |
| `RouteHistory.OpeningEndsPin` | src/app/server/state.rs:74-78 | after a pin and any history, opening with eligible metadata makes it open, unpinned and answering on its key |
| `RouteHistory.PreservingNeverOpens` | src/app/server/state.rs:464-475 | fence-preserving upserts never open an instance that was not open, nor let any lookup find it, whatever metadata they carry and whatever happens to other instances |
| `RouteHistory.PreservingKeepsReachabilityIff` | src/app/server/state.rs:67-71 | a fence-preserving upsert changes no answer of any key or password lookup if and only if both conditions below hold |
| `RouteHistory.PreservingKeepsKeysIff` | src/app/server/state.rs:375-428 | keys: the instance is not open, or already answers on the key the new metadata publishes, or has no key to publish and answers on none |
| `RouteHistory.PreservingKeepsPasswordsIff` | src/app/server/state.rs:521-560 | passwords: the instance keeps its entry, or leaves one with at least two others and joins none with fewer than two |
| `RouteHistory.PreservingRevivesIff` | src/app/server/state.rs:464-475 | it makes an instance that no lookup answers with, by key or password, answer if and only if that instance was open all the same and the new metadata has a key to publish |
| `RouteHistory.PreservingRevealsOtherIff` | src/app/server/state.rs:521-537 | it makes another such instance answer if and only if the upserted one leaves a password entry that only the two shared |
| `RouteHistory.PreservingMovesSharedKey` | src/app/server/state.rs:464-475 | an input: for any two instances sharing a key it takes the key from the later one, which stays open, and revives the earlier one when the later is fenced |
| `RouteHistory.PreservingUncoversPassword` | src/app/server/state.rs:464-475 | another: of two instances sharing a password one gets a new one; every key answers as before, but the old password starts to answer with the other |
| `RouteHistory.RoutedAfter` | src/app/server/state.rs:375-428 | any operation on any slot: the slot it publishes answers with its instance, slots that answered with that instance fall silent, all others are unchanged |
| `RouteHistory.PasswordIdsAfter` | src/app/server/state.rs:539-560 | any operation on any password entry: only its own instance enters or leaves, and it is in exactly if open with that protocol and password |
| `RouteHistory.LastPublicationWins` | src/app/server/state.rs:375-428 | an undisturbed instance keeps answering on its key if and only if nobody publishes that key, even if the newcomer is later fenced or removed |
| `RouteHistory.DistinctKeysAllRouted` | src/app/server/state.rs:375-428 | over every run in which open instances never share a key, a key answers with an instance if and only if that instance is open and has that key |
| `RouteHistory.LoadedComplete` | src/app/server/state.rs:350-356 | so does the store the daemon starts from, if no two eligible entries of different instances share a key |
| `RouteHistory.SharedKeyStrandsFirst` | src/app/server/state.rs:477-496 | for any two eligible instances with one key, fencing the second leaves the first open but answering on no key; its password, if it has one, still finds it |
| `InstanceStore.LookupWithoutId` | src/app/server/state.rs:477-496 | removing an instance's routes silences exactly the keys that named it, in all keyed indexes |
| `InstanceStore.LookupWithRoutesOf` | src/app/server/state.rs:375-428 | publishing changes exactly one key of one index |
| `InstanceStore.EntryAfterDrop` | src/app/server/state.rs:555-560 | removal takes the instance out of every password entry and leaves no empty entry |
| `InstanceStore.EntryAfterAdd` | src/app/server/state.rs:539-553 | adding puts it into the entry of its password only, and creates no empty entry |
| `InstanceStore.IndexesFollow` | src/app/server/state.rs:375-428 | un-publishing and, if the instance is left open, re-publishing keeps all ten indexes equal to what the view says is reachable, for every operation |
| `InstanceStore.ResolveDatabaseRoute` | src/app/server/state.rs:227-256 | a named database is looked up exactly; without a name the answer is found if and only if the username has exactly one database, not found if and only if it has none |
| `InstanceStore.InstanceState.constructor` | src/app/server/state.rs:324-341 | the empty store means the empty view |
| `InstanceStore.InstanceState.BumpRouteRevision` | src/app/server/state.rs:507-511 | the stored 64-bit revisions stay the folded stamps of the view |
| `InstanceStore.InstanceState.Upsert` | src/app/server/state.rs:358-373 | refines the view's upsert: a pinned instance is stored fenced, any other is unfenced and published if eligible |
| `InstanceStore.InstanceState.UpsertFenced` | src/app/server/state.rs:456-462 | refines the view's fenced upsert: stored, fenced, on no index |
| `InstanceStore.InstanceState.UpsertPreservingFence` | src/app/server/state.rs:464-475 | refines the view's preserving upsert |
| `InstanceStore.InstanceState.OpenRoutes` | src/app/server/state.rs:74-78 | refines unpinning followed by an upsert |
| `InstanceStore.InstanceState.FenceExisting` | src/app/server/state.rs:430-438 | fences and reports true if and only if the instance exists |
| `InstanceStore.InstanceState.PinRoutesFenced` | src/app/server/state.rs:92-99 | fences and pins if and only if the instance exists |
| `InstanceStore.InstanceState.Remove` | src/app/server/state.rs:498-505 | returns what was stored and leaves no trace of it but the counter |
| `InstanceStore.InstanceState.FromInstances` | src/app/server/state.rs:350-356 | a rebuilt store means the view obtained by upserting in order from empty, with the counter restarted |
| `InstanceStore.InstanceState.IsCurrent` | src/app/server/state.rs:102-106 | the revision check answers exactly the view's question |
| `InstanceStore.InstanceState.RouteTargetFor` | src/app/server/state.rs:440-454 | a stored instance has a target with its own generation, backend, quota and revision, a missing one has none |
| `InstanceStore.InstanceState.ResolveKey` | src/app/server/state.rs:195-218 | a key lookup finds an instance if and only if its publication of that key is in force; then it is open, owns the key, and the target has its generation, backend and quota and a revision that is current |
| `InstanceStore.InstanceState.ResolveDatabase` | src/app/server/state.rs:286-322 | a database lookup finds exactly the reachable database named, or the only one the username reaches, ambiguous if and only if there are several; the target is that instance's with a current revision |
| `InstanceStore.InstanceState.ResolvePassword` | src/app/server/state.rs:521-537 | password routing answers if and only if exactly one open instance of the protocol has that password, with that one and a current revision |
| `SessionRegistry.InsertedListed` | src/app/gateway/sessions.rs:103-140 | the registry keeps listing exactly the live sessions under their own tenants when a session opens |
| `SessionRegistry.DroppedListed` | src/app/gateway/sessions.rs:262-277 | the same when a session is dropped, and no empty entry is left |
| `SessionRegistry.OpensIff` | src/app/gateway/sessions.rs:103-140 | a session opens if and only if there is no limit or fewer authenticated sessions than it; it is then live as asked and no other changes |
| `SessionRegistry.AdmittedIff` | src/app/gateway/sessions.rs:228-255 | a session is admitted if and only if it is not cancelled and is counted already or fits the limit, aborted if and only if cancelled; a refusal changes nothing |
| `SessionRegistry.DropForgets` | src/app/gateway/sessions.rs:262-277 | a dropped session is gone and gives its place back, and no other changes |
| `SessionRegistry.InsertGrantWithinLimit` | src/app/gateway/sessions.rs:90-140 | a session granted under limit L adds exactly one authenticated session and leaves at most L |
| `SessionRegistry.AuthGrantWithinLimit` | src/app/gateway/sessions.rs:228-255 | authenticating a pending session under limit L likewise |
| `SessionRegistry.PendingTakesNoQuota` | src/app/gateway/sessions.rs:98-101 | a pending session is listed, hence reached by cancellation, but changes no tenant's authenticated sessions |
| `SessionRegistry.EntriesStayInhabited` | src/app/gateway/sessions.rs:103-140 | an insert leaves no empty entry if and only if the limit is not zero or the tenant already had a session |
| `SessionRegistry.TenantSessions.AuthenticatedCount` | src/app/gateway/sessions.rs:214-221 | counts exactly the tenant's live authenticated sessions |
| `SessionRegistry.TenantSessions.Insert` | src/app/gateway/sessions.rs:103-140 | refuses if and only if the quota is full; the new registry is the one specified |
| `SessionRegistry.TenantSessions.Cancel` | src/app/gateway/sessions.rs:144-161 | flags every session of the tenant and nobody else's, and returns their number |
| `SessionRegistry.TenantSessions.Active` | src/app/gateway/sessions.rs:163-170 | zero if and only if no live session belongs to the tenant |
| `SessionRegistry.TenantSessions.Authenticate` | src/app/gateway/sessions.rs:228-255 | aborted when cancelled or unlisted, over limit when full, otherwise authenticated; nothing else changes |
| `SessionRegistry.TenantSessions.DropSession` | src/app/gateway/sessions.rs:262-277 | removes the session, and the tenant's entry with its last one |
| `TenantFencing.Fence` | src/app/server/sessions.rs:6-16 | true if and only if the instance exists; then no lookup reaches it and exactly its sessions are flagged; otherwise nothing changes |
| `FenceProtocol.RunKeepsInv` | src/app/gateway/resolver.rs:252-308 | over every interleaving: one owner per session, revisions never ahead of the store, and every route older than a fence is flagged or about to be |
| `FenceProtocol.FenceReachesEveryOlderRoute` | src/app/server/sessions.rs:6-16 | in every interleaving, once a fence, a fence-and-wait or a pin has returned, each connection holding a route resolved before it has a live session that is cancelled |
| `FenceProtocol.ResolveStarts` | src/app/gateway/resolver.rs:241-250 | a lookup that finds an instance starts an attempt at its present state, with its quota |
| `FenceProtocol.ActivationIff` | src/app/gateway/resolver.rs:195-212 | a MongoDB attempt goes on if and only if the same instance is found again and nobody has touched it |
| `FenceProtocol.OpensAfterResolve` | src/app/gateway/resolver.rs:252-272 | after any steps of others a resolved attempt opens its session unless the quota is full, for PostgreSQL always |
| `FenceProtocol.RouteReturnedIff` | src/app/gateway/resolver.rs:274-308 | whatever others do in between, an attempt with a session has its route after its second check if and only if nobody wrote or fenced its instance since it resolved |
| `FenceProtocol.PostgresServesIff` | src/app/gateway/listeners/postgres_listener.rs:127-148 | a PostgreSQL attempt with its route goes on to serve if and only if nobody writes or fences its instance before the last check and, when it asks, its session is not cancelled and fits the quota |
| `FenceProtocol.DisconnectFrees` | src/app/gateway/sessions.rs:262-277 | hanging up, served or failed, takes exactly its session out of the registry and out of the quota |
| `FenceProtocol.FenceTakesHold` | src/app/server/sessions.rs:6-28 | a fence begun makes the instance unreachable at once, and pins it if and only if it is to |
| `FenceProtocol.FenceCanReturn` | src/app/server/sessions.rs:6-28 | every fence begun can return by its own steps, the waiting kind once the tenant has no session |
| `FenceProtocol.AwaitIff` | src/app/gateway/sessions.rs:172-195 | the wait is over if and only if all that was collected is flagged and the tenant has no session |
| `FenceProtocol.LateAttemptNeverReturns` | src/app/gateway/resolver.rs:274-308 | from the fence on, an attempt that resolved before it and has no route yet never gets one, in any continuation |
| `FenceProtocol.LateAttemptNeverServes` | src/app/gateway/listeners/postgres_listener.rs:127-148 | from the fence on, an attempt that resolved before it and does not serve yet never will, even with its route or authentication in hand |
| `FenceProtocol.OlderPendingNeverAuthenticated` | src/app/gateway/listeners/postgres_listener.rs:135-148 | once a fence has returned, no session still pending for a route resolved before it is ever authenticated, in any continuation |
| `FenceProtocol.DrainedMeansNoRoutes` | src/app/gateway/sessions.rs:172-195 | when the wait sees no session, no connection holds a route to the instance |
| `FenceProtocol.NoRouteWhileClosed` | src/app/gateway/resolver.rs:274-308 | from a closed instance without routes, nobody holds or obtains a route until a write opens it, in every interleaving, also after a write of ineligible metadata has lifted the fence |
| `FenceProtocol.IneligibleWritesNeverOpen` | src/app/server/state.rs:358-373 | writes of ineligible metadata, as on the stop path, never count as opening |
| `FenceProtocol.FenceAndWaitIsFinal` | src/app/server/sessions.rs:18-28 | a completed fence-and-wait means no route to the instance is held or obtained until a write opens it, in every interleaving before and after its return |
| `FenceProtocol.QuotaHolds` | src/app/gateway/sessions.rs:90-140 | in every interleaving a tenant whose metadata never allows more than a bound never has more authenticated sessions than it |
| `FenceProtocol.EntryIffLive` | src/app/gateway/sessions.rs:262-277 | in every interleaving the registry has an entry for exactly the tenants with a live session |
| `FenceProtocol.NoSessionLeaks` | src/app/gateway/sessions.rs:262-277 | in every interleaving each live session belongs to a connection that has not hung up |
| `Admission.StepKeepsCount` | src/app/gateway/supervisor.rs:97-149 | under every interleaving the counter counts exactly the callers between increment and release, and a release never finds it at zero |
| `Admission.CallerAlone` | src/app/gateway/supervisor.rs:97-149 | a caller alone is granted if and only if the gate is open, counts while it is in, and leaves the gate as it found it |
| `Admission.CaughtByClosing` | src/app/gateway/supervisor.rs:97-109 | one counted before the gate closed is refused and gives its count back |
| `GatewaySupervisor.RunKeepsInv` | src/app/gateway/supervisor.rs:185-237 | stopping is absorbing, and once shutdown has returned connections are never accepted again, whatever administrative calls are under way |
| `GatewaySupervisor.CallsTakeEffect` | src/app/gateway/supervisor.rs:185-237 | each administrative call sets its phase and opens or closes the gate, unless the supervisor is stopping, when only shutdown has an effect |
| `GatewaySupervisor.DrainedAfterShutdownIsFinal` | src/app/gateway/supervisor.rs:255-277 | once shutdown has returned and a drain has read zero, no guard is live and none is ever granted |
| `GatewaySupervisor.DrainFinalIff` | src/app/gateway/supervisor.rs:88-135 | a drained gateway stays drained in all continuations if and only if the supervisor is stopping with the flag down |
| `DaemonShutdown.DrainedIsFinal` | src/app/state.rs:105-147 | once the mutation drain has completed, no permit is live and none is ever granted |
| `DaemonShutdown.TriggerDrains` | src/app/state.rs:105-147 | after a trigger no permit is given, and the drain completes exactly when no mutation is counted |
| `EventCoalescer.Coalescer.constructor` | src/app/daemon/container_events.rs:49-51 | a fresh subscription has nothing running or waiting |
| `EventCoalescer.NewestIsLast` | src/app/daemon/container_events.rs:145-161 | an instance's newest event is its own, and none of its events arrived later |
| `EventCoalescer.Coalescer.Schedule` | src/app/daemon/container_events.rs:145-161 | an event for a busy instance replaces the one waiting, any other starts at once; one task per instance and eight in all, and no newest event is lost, an event equal to an earlier one included |
| `EventCoalescer.Coalescer.Finish` | src/app/daemon/container_events.rs:207-227 | the event waiting behind the ended task starts at once in its place, else the instance is free; the measure of remaining work drops |
| `EventCoalescer.Coalescer.WaitForOne` | src/app/daemon/container_events.rs:189-205 | the same for some running task; bounds hold even when it died |
| `EventCoalescer.Coalescer.Drain` | src/app/daemon/container_events.rs:229-247 | terminates with nothing running or waiting, and succeeds if no task dies; then each instance's newest event was given to a task spawned after it arrived |
| `EventCoalescer.Coalescer.Handle` | src/app/daemon/container_events.rs:62-108 | a finished task is dealt with at once, so that remaining work drops; a new event makes its instance busy, and running if it was free |
| `EventCoalescer.Coalescer.Monitor` | src/app/daemon/container_events.rs:49-117 | for any order of events and completions, a subscription in which no task dies succeeds; one that succeeds has reconciled each instance's newest event among those it read, in a task spawned after that arrival |
| `Reconcile.PersistStores` | src/app/server/reconcile.rs:99-114 | the store holds the result if and only if it was made durable |
| `Reconcile.StoredAfter` | src/app/daemon/container_events.rs:289-457 | a step changes the stored metadata of its own instance only, to its result, and only durably |
| `Reconcile.ReconciledStatusIff` | src/app/server/reconcile.rs:116-227 | for any answers of the engine, which status reconciliation gives, one if-and-only-if per status, a missing container, a failed inspection and a failed stop included; nothing else changes but that a quarantine is meant to stay stopped |
| `Reconcile.QuarantinedIsLeftAlone` | src/app/server/reconcile.rs:116-146 | a quarantined instance stays so and is meant to be stopped |
| `Reconcile.ReachedIff` | src/app/daemon/container_events.rs:289-385 | which boot, event and snapshot steps get to reconcile an instance, and which fence it first because its container came up |
| `Reconcile.ResultIs` | src/app/daemon/container_events.rs:386-409 | the result is that of reconciliation, rewritten to failed exactly if readiness failed, the container died of itself, or a failed one went down |
| `Reconcile.RunningIff` | src/app/server/reconcile.rs:193-227 | an instance meant to run is found running if and only if the step's own inspection saw a running container without network behind a Unix socket, and nothing made it fail anyway |
| `Reconcile.OpenAfterStepIff` | src/app/server/reconcile.rs:99-114 | what a step does to traffic, on its inputs: a stored result opens the instance exactly if running, meant to run, within its disk limit and not pinned; one not stored leaves it open exactly if nothing fenced it first |
| `Reconcile.RunningMeansInspected` | src/app/server/reconcile.rs:193-227 | every running status a step persists, whatever the instance was meant to do, comes from its own inspection |
| `Reconcile.MismatchClosesRouteIff` | src/app/server/reconcile.rs:229-256 | an open instance found not isolated is closed if and only if the step gets to reconcile it and it is not the case that an event or snapshot failure rewrites the quarantine, without activation, and the write fails; desired state becomes stopped in every case |
| `Reconcile.UnisolatedRouteStaysOpen` | src/app/daemon/container_events.rs:402-419 | the input: out of memory, a bridge network and a failed write leave the route open |
| `Reconcile.QuarantineIsAbsorbing` | src/app/server/reconcile.rs:116-146 | no sequence of boot, event and snapshot reconciliations takes an instance out of quarantine or opens it |
| `Reconcile.StoppedStaysUnroutable` | src/app/server/reconcile.rs:116-146 | an instance meant to be stopped stays so and unroutable through every such sequence |
| `Reconcile.DurableMismatchStaysUnroutable` | src/app/daemon/container_events.rs:402-419 | a mismatch whose result was stored leaves the instance unroutable for every later sequence, even when an event rewrote quarantine to failed |
| `RollingLog.MovedKeepsJoined` | src/app/daemon/logging.rs:204-206 | renaming a file onto a free neighbouring index leaves the text of all files read oldest to newest unchanged |
| `RollingLog.RemovingOldest` | src/app/daemon/logging.rs:203-203 | removing the oldest file drops exactly its bytes from the front |
| `RollingLog.Log.Create` | src/app/daemon/logging.rs:148-161 | a zero limit is refused, and without a fault nothing else is; a log that comes back is open, retains exactly what the managed files hold, and is within the limit if they were |
| `RollingLog.Log.Open` | src/app/daemon/logging.rs:182-195 | opening, failed or not, changes no text and sets the byte count to the file's length |
| `RollingLog.Log.FlushBuffer` | src/app/daemon/logging.rs:254-260 | a flush, failed or not, loses and reorders nothing |
| `RollingLog.Log.Rotate` | src/app/daemon/logging.rs:197-208 | whichever step fails, what is retained loses nothing but the oldest file, keeps its order and stays a suffix of the history; on success the current file is empty, and without a fault it succeeds |
| `RollingLog.Log.Write` | src/app/daemon/logging.rs:231-252 | takes all that fits in the file, or less only of data larger than the write buffer; rotates, giving up the oldest file, only if the file is not empty and cannot hold the data; never underflows the room left, keeps all files within the limit, and without a fault succeeds |
| `RollingLog.Log.WriteAll` | src/app/daemon/logging.rs:230-260 | on success the whole record was taken, and a record no longer than the limit lies unbroken at the end of the current file; on failure exactly a prefix was taken; without a fault it succeeds |
| `LogRedactor.ChunksDoNotMatter` | src/app/utils/logs.rs:14-34 | any two ways of cutting a text into pushes give the same output, pending text and failure flag, for any record redaction |
| `LogRedactor.SilentTail` | src/app/utils/logs.rs:14-34 | once failed, nothing more is kept or released |
| `LogRedactor.FeedPart` | src/app/utils/logs.rs:16-31 | handling a whole part at once equals handling its bytes one by one, at every pending length |
| `LogRedactor.Redactor.Push` | src/app/utils/logs.rs:14-34 | a push is the byte-by-byte reference, and pending text never exceeds the record limit |
| `LogRedactor.FailureMarksOnce` | src/app/utils/logs.rs:20-25 | a failing text releases what it would have before one byte, then the marker, once, and keeps nothing |
| `LogRedactor.MarkerIsLastIff` | src/app/utils/logs.rs:36-39 | after a failure the marker is the last thing emitted, `finish` included, if and only if an empty record is redacted to an empty record |
| `LogRedactor.ReleasedAtBreaks` | src/app/utils/logs.rs:14-34 | with a redaction that changes nothing, a text does not fail if and only if all its records fit, and then every complete record is out and the rest is pending |
| `LogRedactor.NothingIsLost` | src/app/utils/logs.rs:36-39 | and such a text comes out whole, its unterminated last line included |
| `LogRedactor.OnlyClearedText` | src/app/utils/logs.rs:14-39 | for any redaction a stream emits nothing but what the redaction gave back and the two markers |
| `LogRedactor.Collect` | src/app/runtime/docker/inspection.rs:571-599 | pushing decoded chunks of one stream until they end or one fails and then finishing gives the output of the whole decoded text, however it was cut |
| `InstanceLocks.RunKeepsInv` | src/app/server/locks.rs:15-28 | pruning never splits the owners of one id's mutex, over every interleaving |
| `InstanceLocks.MutualExclusion` | src/app/server/locks.rs:15-28 | callers share a mutex if and only if they named the same instance, and at most one holds it |
| `InstanceLocks.CallerQueuesUp` | src/app/server/locks.rs:15-28 | whoever finds the map free gets in and leaves it queued for a mutex |
| `InstanceLocks.PrunedExactly` | src/app/server/locks.rs:18-18 | entering the map takes out exactly the mutexes nobody owns |
| `InstanceLocks.AcquiredIff` | src/app/server/locks.rs:15-28 | whoever waits gets the lock if and only if nobody holds it for the same instance |
| `ConnectionLimiter.TotalIsLive` | src/app/gateway/security.rs:55-69 | per-peer counts add up to the live permits |
| `ConnectionLimiter.Limiter.LivePermitsBounded` | src/app/gateway/security.rs:151-160 | live permits never exceed 8192 times the per-peer cap |
| `ConnectionLimiter.Limiter.EvictIdlePeers` | src/app/gateway/security.rs:185-206 | a peer is forgotten if and only if a sweep is due and it is idle for a window without a permit |
| `ConnectionLimiter.SweptIff` | src/app/gateway/security.rs:185-206 | who is still tracked: those with a permit, those seen within a minute, and everybody while the last sweep is less than a minute ago and there is room |
| `ConnectionLimiter.Limiter.constructor` | src/app/gateway/security.rs:90-101 | the per-peer cap is at least one and never above the rate quota |
| `ConnectionLimiter.Limiter.TryAcquire` | src/app/gateway/security.rs:102-149 | after the sweep, an unknown peer is turned away if and only if 8192 are tracked; any other gets a permit if and only if it is under its cap and the rate check allows it; each refusal is logged unless its flag is up, and an active-limit refusal only if none was since the peer's last reset |
| `ConnectionLimiter.RefusalsLoggedOnce` | src/app/gateway/security.rs:111-142 | of two refusals of a peer in a row for one reason the second is not logged, the first after a permit is |
| `ConnectionLimiter.Limiter.Release` | src/app/gateway/security.rs:55-69 | takes back exactly one permit, and resets the peer's logging with its last one |
| `ConnectionLimiter.LimitersAgreeOnPeers` | src/app/gateway/security.rs:221-234 | gateway and API limiter tell two addresses apart in exactly the same cases |
| `ConnectionLimiter.SamePeerIff` | src/app/gateway/security.rs:221-234 | two addresses are one peer if and only if they are the same IPv4 address, in either form, or IPv6 addresses with the same first eight octets |
| `ApiAdmission.RunKeepsInv` | src/app/daemon/admission.rs:132-183 | over every interleaving global permits plus connections make up the cap, and each peer's count is its number of admitted connections, within its cap and never kept at zero |
| `ApiAdmission.CountsSumToLive` | src/app/daemon/admission.rs:140-159 | peer counts add up to the admitted connections, within the global cap |
| `ApiAdmission.AllReturned` | src/app/daemon/admission.rs:168-183 | when all connections are gone both levels are as at the start |
| `ApiAdmission.RefusedLeavesNoTrace` | src/app/daemon/admission.rs:140-159 | a request is admitted if and only if both levels have room, and a refused one leaves both exactly as they were |
| `ApiAdmission.ComeAndGo` | src/app/daemon/admission.rs:140-183 | coming and going, admitted or not, restores both levels exactly |
| `QueryBudget.RunConserves` | src/app/gateway/buffers.rs:28-55 | over every interleaving, bytes taken globally are exactly those of live or leaving reservations of all tenants, and each tenant's budget accounts for its own |
| `QueryBudget.RefusedLeavesNoTrace` | src/app/gateway/buffers.rs:36-55 | a reservation succeeds if and only if it fits in 32 bits and in both levels, and a refused one leaves both as they were |
| `QueryBudget.ReserveAndRelease` | src/app/gateway/buffers.rs:22-55 | reserving and releasing, granted or not, restores both levels exactly |
| `MysqlQuoting.IdentRoundTrip` | src/app/databases/mod.rs:16-18 | the server reads a quoted identifier back exactly, whatever follows but a backtick |
| `MysqlQuoting.EscapePatternStep` | src/app/databases/mod.rs:21-25 | the three successive replacements are one escape per character |
| `MysqlQuoting.GrantCoversOnlyItsDatabase` | src/app/databases/mod.rs:20-27 | the grant text for a database, unquoted and read as a pattern, covers a name if and only if it is that database |
| `MysqlQuoting.StringRoundTrip` | src/app/databases/mod.rs:98-100 | the server reads a quoted string back exactly, whatever follows but a quote |
| `Digests.FieldsInjective` | src/app/auth/jwt.rs:141-144 | a concatenation of length-prefixed fields can be read back in one way only |
| `Digests.BigEndianReadsBack` | src/app/auth/jwt.rs:141-144 | the eight length bytes, most significant first, stand for the length |
| `Digests.LeIff` | src/app/auth/jwt.rs:131-131 | the sort compares byte strings by prefix or first differing byte |
| `Digests.FingerprintInjective` | src/app/storage/secrets.rs:128-146 | equal fingerprint messages have equal domain, instance and value list |
| `Digests.FingerprintMessage` | src/app/storage/secrets.rs:128-146 | the loop builds exactly that message |
| `Digests.SortedUnique` | src/app/auth/jwt.rs:131-131 | a list of pairs has one sorted arrangement, so an unstable sort does not matter |
| `Digests.PreImageIdentifiesPairs` | src/app/auth/jwt.rs:129-139 | two lists of pairs have the same digest input if and only if one is a rearrangement of the other |
| `Digests.PreImageOfOne` | src/app/auth/jwt.rs:129-144 | for one pair the digest input is the prefix, then instance and generation, each after its length |
| `Digests.DigestMessage` | src/app/auth/jwt.rs:129-139 | the loop feeds exactly that input |

## Left out

- FenceProtocol.RunKeepsInv: runs are limited to fewer than 2^64 - 1 store operations in all, because after a full period an old revision compares equal again; store rebuilds are not a step, because they restart the counter.
- FenceProtocol.QuotaHolds: a tenant whose quota shrinks keeps the sessions it already has, so the bound is the largest quota its metadata ever carried.
- EventCoalescer.Coalescer.Drain: when a task dies the waiting events are dropped with it, as in the source, so the claim about newest events excludes that case.
- RollingLog.Log.WriteAll: an interrupted system call ends the write instead of being retried.
- InstanceStore.InstanceState: the ten index fields are grouped into records by shape; each is updated as the source does.
- Liveness and timeouts: how long drains and `cancel_and_wait` take, wakers and notifiers; only what a true result implies is proved.
- Weaker memory orderings than sequential consistency.
- The rate limiter's own arithmetic, and all hashing, HMAC, encryption, JWT and base64.
- What `redact_log_record` recognises as a secret.
- Retrying a PostgreSQL or ClickHouse lookup without a database name that is a default catalog alias: a second lookup of the kind modelled.
- LogRedactor.Collect: the chunks are texts already decoded. The source decodes each raw chunk by itself, lossily, so a character cut between two chunks does change its output; and it caps what it keeps of the output.
- LogRedactor.Collect: one of the two output streams; in the source a failure of either also stops the other, whose unread chunks are then lost.
- SQLite repositories, migrations and the backup journal; a durable write is one step that succeeds or fails.
- Container engine calls, gateway listeners and protocol handshakes, placement of shared tenants, and their pool recovery.
- Hardening of credentials after activation, which only decides whether an activation failed.
- The info-level log rate window, log summaries, configuration, CLI, TLS, systemd and OpenAPI: easy or presentational.
