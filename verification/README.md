# Estafeta, modelled in Dafny

A model of the notification service's backend and proofs of what it guarantees when everything
happens at once: several scheduler instances, several processors, users, producers and admins.

| file | what it holds |
|---|---|
| `StateMachine.dfy` | the specification machine of a notification's life |
| `Notifications.dfy` | the table, its SQL statements as WHERE and SET clauses, and their laws |
| `Cluster.dfy` | the table under K scheduler instances and everybody else, as interleaved actions |
| `EscalationBounds.dfy` | bounds on count and time of escalations, in every interleaving |
| `Counting.dfy`, `EscalationWrites.dfy`, `EscalationWorstCase.dfy` | the exact worst case of escalation writes on one row |
| `Requests.dfy` | the escalation bounds in terms of what was requested for a type |
| `Snoozes.dfy` | how long a snooze lasts |
| `Conformance.dfy`, `Inbox.dfy` | state changes, badge counts and read marks over whole runs |
| `Batches.dfy`, `Sweeps.dfy` | batches in deadline order; the wake and expire sweeps under row locks |
| `Scheduler.dfy` | the scheduler's loops as coded, shown to be runs of the cluster |
| `Ingestion.dfy` | at-least-once delivery to several processors |
| `Caches.dfy`, `Registry.dfy` | read-through caches with a time to live; composite keys |
| `Chronicle.dfy`, `Processor.dfy` | `process_message` as coded, and where in the database's history each of its answers comes from |
| `Attempts.dfy` | a message handled by `process_message` as an attempt of the ingestion pipeline |
| `Preferences.dfy`, `ProtoConvert.dfy` | preference resolution; Struct and JSON conversion |

A run is a sequence of actions; an action that is possible in a state leads to one next state, and
theorems quantify over all runs.

Four results worth knowing. `max_escalations` does not limit how often a row is escalated once two
scheduler instances run, because `get_escalation_due` gives up its row locks before the count is
written: two passes can hold the same row (`EscalationWorstCase.PassesDisjointExactly`), and with K
instances and limit M the worst case is exactly C(K + M, M) - 1 escalations
(`EscalationWorstCase.LimitHoldsExactly`, `EscalationWrites.WritesAtMost`,
`EscalationWorstCase.WorstCaseIsAttained`). A message whose row was inserted by an attempt that is
then lost can never be acknowledged, and if it had not been announced it never is, however many
deliveries are left (`Ingestion.AckableExactlyWhenHopeful`, `Ingestion.AnnouncedExactlyWhenAnnounceable`,
`Ingestion.EventCanBeLost`). A failed publish is only logged, so an acknowledged message can
have an unseen row that is never announced, exactly when that happens (`Ingestion.UnannouncedExactly`,
`Ingestion.AckedUnannounced`). An invalidated type can come back stale, exactly when a load was under
way (`Caches.InvalidationIsExact`, `Caches.InvalidatedComesBack`).

Where docs/lifecycle.md and the code differ, the model follows the code: waking goes to `unread`,
snoozing is also allowed from `read`, "dismissed" is called `archived` and can be undone, `expired` is
left only by a resurface, and concurrent escalation passes do not work on disjoint rows.

Assumptions: the database and all servers share one monotone clock. Each SQL statement is atomic,
except that a sweep locks its batch before it updates it, and that an escalation pass is a separate
step for its SELECT, the type lookup, the deadline, the count and the action. Services, types and rows
are never deleted. Each scheduler instance has one escalation pass under way at a time.

## Model

| member | source | states |
|---|---|---|
| StateMachine.CanTransitionIsApply | crates/estafeta-server/src/lifecycle/state_machine.rs:54-68 | `can_transition_to` holds exactly when some transition applied there succeeds with that state; nothing re-enters unseen or steps to itself |
| StateMachine.CanTransitionIsSuccessor | crates/estafeta-server/src/lifecycle/state_machine.rs:42-51 | the accepted edges, state by state |
| StateMachine.ApplyExactly | crates/estafeta-server/src/lifecycle/state_machine.rs:42-61 | for each transition, the states it is accepted from, its target, and the error naming both states elsewhere |
| Notifications.RepeatedStatement | crates/estafeta-server/src/db/notifications.rs:196-412 | repeating a user's statement at any later time reports 0 rows and changes nothing; a sweep never updates a row again that it has just updated |
| Notifications.ConsecutiveLists | crates/estafeta-server/src/db/notifications.rs:196-368 | list A then list B equals A ++ B at one instant, and the reported counts add up |
| Notifications.CatchAllForms | crates/estafeta-server/src/db/notifications.rs:215-329 | `mark_all_seen` and `archive_all_in_group` equal their id-list forms on any list naming the matching rows |
| Notifications.Frame | crates/estafeta-server/src/db/notifications.rs:196-488 | statements never add or remove rows, change identity columns or TTLs, touch unselected rows, or touch another user's rows |
| Notifications.StatementOnRow | crates/estafeta-server/src/db/notifications.rs:433-470 | only `update_escalation` changes the escalation columns; snoozed keeps a wake time and unseen keeps no seen time |
| Notifications.EdgesExactly | crates/estafeta-server/src/lifecycle/state_machine.rs:42-61 | the state changes statements can make are exactly the machine's edges less snoozed-expired and expired-archived, plus read-snoozed, snoozed-archived and every edge into unseen |
| Notifications.EdgeOfStatement | crates/estafeta-server/src/db/notifications.rs:196-470 | which statement makes which change: only resurface enters unseen, only wake turns snoozed to unread, only the expiry sweep expires |
| Conformance.StateChangesInRuns | crates/estafeta-server/src/lifecycle/scheduler.rs:134-195 | in every run each change is accepted by `apply` except the three deviations, and a row enters unseen only by an admin's resurface or by a pass that had read that row as unseen or unread |
| Conformance.EdgesOfRuns | crates/estafeta-server/src/lifecycle/state_machine.rs:42-61 | the state changes that runs from an empty database make are exactly the machine's edges less the two unused ones, plus the deviations; each is made by some run |
| Cluster.ExecEvolves | crates/estafeta-server/src/db/schemas.rs:86-95 | over any run rows and types stay, identities never change, a type's history only grows, the clock never goes back |
| Cluster.DoOnRow | crates/estafeta-server/src/lifecycle/scheduler.rs:139-161 | a row's count and deadline change only by a pass's write, to one more than the count that pass had fetched and the deadline it had computed |
| Cluster.InsertMakesRow | crates/estafeta-server/src/processing/processor.rs:120-165 | an inserted row is unseen or archived as decided, with count 0 and both deadlines as its type's version asks for; nothing else changes |
| Cluster.ReadTypeReads | crates/estafeta-server/src/lifecycle/scheduler.rs:143-147 | a pass reads the type's last version, or none if there is no such type |
| Cluster.DeadlineSchedules | crates/estafeta-server/src/lifecycle/scheduler.rs:150-159 | another escalation is scheduled exactly while the new count is below the limit and there is an interval, one interval from then |
| Cluster.WriteSets | crates/estafeta-server/src/db/notifications.rs:433-452 | the write sets the count and the deadline of its row and touches nothing else |
| Cluster.ActBumpsOrResurfaces | crates/estafeta-server/src/lifecycle/scheduler.rs:163-192 | a row of a bump type is only bumped; one of any other type, or of none, becomes unseen with its seen time cleared |
| EscalationBounds.CountWithinLargestLimit | crates/estafeta-server/src/lifecycle/scheduler.rs:140-161 | in every interleaving the count is at most the largest limit the type ever had, strictly below it while another escalation is scheduled, and never overflows an i32 |
| EscalationBounds.ReachableColumns | crates/estafeta-server/src/db/notifications.rs:270-391 | in every run snoozed rows have a wake time and unseen rows no seen time; a pass only acts on rows it read as unseen or unread |
| EscalationBounds.EscalationsAreNeverEarly | crates/estafeta-server/src/lifecycle/scheduler.rs:150-159 | in every run, count times the smallest interval the type ever had is at most the time since the processor computed the first deadline |
| EscalationBounds.AtMostOnePerSecond | crates/estafeta-server/src/grpc/schema_registry.rs:126-141 | since a stored interval is positive, a row's count is never more than the seconds since its first deadline was computed |
| EscalationBounds.LeastCountNeverFalls | crates/estafeta-server/src/lifecycle/scheduler.rs:139-161 | the minimum of a row's stored count and all counts held for it by passes in flight never decreases |
| EscalationWrites.LevelsAscend | crates/estafeta-server/src/lifecycle/scheduler.rs:134-161 | every write of a row moves the multiset of the instances' levels up in lexicographic order, and no action moves it down |
| EscalationWrites.WritesUseUp | crates/estafeta-server/src/lifecycle/scheduler.rs:134-161 | over any run the rank of that multiset grows by at least the number of writes |
| Counting.RankIsLexicographic | crates/estafeta-server/src/lifecycle/scheduler.rs:134-161 | that rank, a sum of binomials, orders the levels lexicographically |
| EscalationWrites.WritesAtMost | crates/estafeta-server/src/lifecycle/scheduler.rs:134-161 | with K instances and no limit of the type ever above M, any run writes a row's escalation at most C(K+M, M) - 1 times |
| EscalationWrites.WritesAtMostPowers | crates/estafeta-server/src/lifecycle/scheduler.rs:134-161 | hence at most K + ... + K^M times, and at most M times if K = 1 |
| EscalationWorstCase.WorstCaseIsAttained | crates/estafeta-server/src/db/notifications.rs:415-452 | for all K and M some run makes exactly C(K+M, M) - 1 writes |
| EscalationWorstCase.LimitHoldsExactly | docs/lifecycle.md:233 | the documented limit on escalation cycles holds in all runs if and only if at most one instance runs or the limit is 0 |
| EscalationWorstCase.PassesDisjointExactly | docs/lifecycle.md:322 | no two passes ever hold the same row, as documented, if and only if at most one instance runs or the limit is 0 |
| Requests.HistoryIsRequests | crates/estafeta-server/src/grpc/schema_registry.rs:82-136 | a type's history is exactly its requests in order, each kept as asked: times if positive, the limit, bump for 2, elevate for 3, resurface otherwise |
| Requests.CountWithinRequested | crates/estafeta-server/src/lifecycle/scheduler.rs:140-161 | a row's count never passes the largest limit requested for its type |
| Requests.WritesWithinRequested | crates/estafeta-server/src/lifecycle/scheduler.rs:134-161 | with K instances and no request above M, at most C(K+M, M) - 1 writes of a row |
| Requests.NeverEarlierThanRequested | crates/estafeta-server/src/lifecycle/scheduler.rs:150-159 | count times the smallest interval requested is at most the time since the first deadline was computed |
| Requests.BumpedRowsStaySeen | crates/estafeta-server/src/lifecycle/scheduler.rs:174-177 | in any run, a row of a type that was only ever to be bumped becomes unseen only by an admin's resurface |
| Snoozes.SnoozeLasts | crates/estafeta-server/src/db/notifications.rs:270-289 | a snooze sets the time asked for; in no run in which the row is not snoozed again is it woken before then, and from then on it is due |
| Inbox.FilteredCountIsSum | crates/estafeta-server/src/db/notifications.rs:122-194 | a count filtered by a non-empty service list is the sum of the per-service counts over the distinct ids of the list |
| Inbox.GetCount | crates/estafeta-server/src/grpc/notifications.rs:450-484 | counts the rows of the services named, but all of the user's if none of the slugs given is registered |
| Inbox.AnsweredAsAskedExactly | crates/estafeta-server/src/grpc/notifications.rs:450-484 | a count request is answered as asked in every table if and only if it names no service or at least one registered one |
| Inbox.BadgeLedger | crates/estafeta-server/src/db/notifications.rs:122-230 | over any run the unseen count is inserted unseen plus resurfaced from elsewhere less what mark-seen, snooze, archive and expiry took; the six state counts sum to the rows inserted |
| Inbox.ChargesAreMoves | crates/estafeta-server/src/db/notifications.rs:196-470 | each entry of the ledger is the number of the user's rows an action takes from unseen to that state, makes unseen, or inserts |
| Inbox.MarkSeenReportsBadgeDrop | crates/estafeta-server/src/grpc/notifications.rs:305-319 | the count a mark-seen reports is what it takes off that user's badge, and nobody else's changes |
| Inbox.ReadWithoutTime | crates/estafeta-server/src/db/notifications.rs:331-349 | in every run a read row without a read time last became read by being unarchived |
| Inbox.EntryMeans | crates/estafeta-server/src/db/notifications.rs:331-349 | an entry into read counts as unarchived exactly if the row was archived before |
| Batches.Select | crates/estafeta-server/src/db/notifications.rs:378-384 | picks min(limit, n) of the due rows, earliest first, leaving none that is earlier than one picked |
| Batches.DueMeans | crates/estafeta-server/src/db/notifications.rs:373-405 | exactly which rows are due for waking and for expiring, and since when |
| Batches.SweepSets | crates/estafeta-server/src/db/notifications.rs:373-412 | a sweep of due rows wakes or expires each of them as the SET clause says and changes nothing else |
| Batches.SweepTakesBatch | crates/estafeta-server/src/db/notifications.rs:373-412 | a sweep updates exactly its batch; the other due rows stay due with their deadlines |
| Batches.DrainLeaves | crates/estafeta-server/src/lifecycle/scheduler.rs:74-106 | with n rows due and nothing else going on, k sweeps of size B leave exactly max(0, n - kB), and no row left is earlier than one taken |
| Batches.BacklogGone | crates/estafeta-server/src/lifecycle/scheduler.rs:9 | the backlog is empty exactly from ceil(n / B) sweeps on |
| Sweeps.SweepsAreExact | crates/estafeta-server/src/lifecycle/scheduler.rs:74-132 | concurrent instances hold disjoint batches, no transition is before its deadline, each yields at most one event, and an event is missing only if its pass stopped or its publish failed |
| Sweeps.CommitsAreTheTransitions | crates/estafeta-server/src/db/notifications.rs:373-412 | an action takes a row through the transition if and only if it is the commit of the instance holding the row, and the rows returned are exactly those |
| Scheduler.Database.MarkSeen | crates/estafeta-server/src/grpc/notifications.rs:298-320 | the user's unseen rows that are listed, or all of them if the list is empty, become unread and seen now, all other rows stay, and the count is what the user's badge drops by |
| Scheduler.Database.MarkRead | crates/estafeta-server/src/db/notifications.rs:232-249 | the user's listed unread rows become read now; no other row changes, and the count is the number changed |
| Scheduler.Database.MarkUnread | crates/estafeta-server/src/db/notifications.rs:251-268 | the user's listed read rows become unread and lose their read time; no other row changes, and the count is the number changed |
| Scheduler.Database.Snooze | crates/estafeta-server/src/db/notifications.rs:270-289 | the user's row, if unseen, unread or read, is snoozed until the time asked for; no other row changes, and the count is the number changed |
| Scheduler.Database.Archive | crates/estafeta-server/src/db/notifications.rs:291-309 | the user's listed rows become archived, unless archived or expired; no other row changes, and the count is the number changed |
| Scheduler.Database.ArchiveAllInGroup | crates/estafeta-server/src/db/notifications.rs:311-329 | the user's rows of the service become archived, unless archived or expired; no other row changes, and the count is the number changed |
| Scheduler.Database.Unarchive | crates/estafeta-server/src/db/notifications.rs:331-349 | the user's listed archived rows become read, their read time unchanged; no other row changes, and the count is the number changed |
| Scheduler.Database.ProducerMarkRead | crates/estafeta-server/src/db/notifications.rs:351-368 | the user's listed unread rows become read now; no other row changes, and the count is the number changed |
| Scheduler.Database.SweepDue | crates/estafeta-server/src/db/notifications.rs:373-412 | updates the earliest due rows nobody has locked and returns them as updated |
| Scheduler.Database.EscalationBatch | crates/estafeta-server/src/db/notifications.rs:415-430 | the earliest escalations due that nobody has locked |
| Scheduler.EscalationsDueMeans | crates/estafeta-server/src/db/notifications.rs:415-430 | exactly which rows may be escalated, and since when |
| Scheduler.RunSweep | crates/estafeta-server/src/lifecycle/scheduler.rs:74-132 | is one sweep of the cluster followed, in order, by an event for exactly the returned rows whose publish does not fail, up to the first that cannot be encoded; each goes to the row's user, names the row and its new state, and for a wake its old one |
| Scheduler.EscalateOne | crates/estafeta-server/src/lifecycle/scheduler.rs:139-195 | one row of a pass, with anything happening in between, is a run of the cluster with exactly the steps type, deadline, write, act, or a prefix of them |
| Scheduler.ActStep | crates/estafeta-server/src/lifecycle/scheduler.rs:163-192 | bumps the row of a bump type, makes any other unseen, and changes nothing else |
| Scheduler.RunEscalation | crates/estafeta-server/src/lifecycle/scheduler.rs:134-197 | a whole pass is a run of the cluster that fetches the earliest unlocked due rows and takes the steps of each in order until one fails |
| Ingestion.AtMostOnce | crates/estafeta-server/src/processing/processor.rs:47-68 | under redelivery, overlap and crashes: one row per id and per idempotency key, one event per notification and only of rows inserted unseen, at most five deliveries, and an acknowledged message has its row and, exactly if that went in unseen and its publish did not fail, its event |
| Ingestion.FiveDeliveries | crates/estafeta-server/src/nats/setup.rs:20-30 | a run in which a message is delivered five times, after which no further delivery is possible |
| Ingestion.AckedIsOver | crates/estafeta-server/src/processing/processor.rs:66 | an acknowledged message is not delivered again |
| Ingestion.UnannouncedExactly | crates/estafeta-server/src/nats/publisher.rs:32-40 | in any run, an acknowledged message with an unseen row lacks its event if and only if a publish of it failed |
| Ingestion.AckedUnannounced | crates/estafeta-server/src/nats/publisher.rs:32-40 | a run that acknowledges a message whose unseen row is not announced |
| Ingestion.AckableExactlyWhenHopeful | crates/estafeta-server/src/processing/processor.rs:145-196 | a message can still be acknowledged if and only if a live attempt holds its row, or its row and key are free and an attempt is under way or left |
| Ingestion.AnnouncedExactlyWhenAnnounceable | crates/estafeta-server/src/processing/processor.rs:145-187 | an event that is not out can still go out if and only if a live attempt inserted the row unseen and has yet to publish, or row and key are free and an attempt is under way or left; for a row already in unseen, the former alone |
| Ingestion.EventCanBeLost | crates/estafeta-server/src/processing/processor.rs:145-187 | a run that leaves an unseen row with no event, deliveries left, and neither its event nor its acknowledgement ever possible |
| Caches.LookupWithinWindow | crates/estafeta-server/src/processing/processor.rs:199-318 | a lookup returns a version the row held within the last time to live plus the longest load, a miss one held within the load |
| Caches.WindowIsTight | crates/estafeta-server/src/cache/mod.rs:86-101 | for every time to live and load time some lookup is that stale |
| Caches.FoundWithinMinutes | crates/estafeta-server/src/cache/mod.rs:86-101 | a cached type or level was the database's less than 300 seconds and a load ago, cached preferences less than 60 seconds and a load ago |
| Caches.FoundThatOld | crates/estafeta-server/src/cache/mod.rs:86-101 | and for each cache some lookup is that stale |
| Caches.InvalidationIsExact | crates/estafeta-server/src/grpc/schema_registry.rs:128-146 | after write-then-invalidate every later lookup on that instance returns that version or newer if and only if no older load was under way there |
| Caches.InvalidatedComesBack | crates/estafeta-server/src/processing/processor.rs:205-237 | a run from an empty cache after whose update and invalidation an older version is served again |
| Registry.KeysCollide | crates/estafeta-server/src/cache/mod.rs:104-111 | exactly which (slug, key) pairs share a cache key |
| Registry.ColonFreeKeysAreInjective | crates/estafeta-server/src/cache/mod.rs:104-111 | slugs without a colon never share one |
| Registry.ColonSlugsCollide | crates/estafeta-server/src/cache/mod.rs:104-106 | a slug with a colon can |
| Registry.StaleEntriesStayOk | crates/estafeta-server/src/db/services.rs:66-72 | however old, a cached entry still names a registered service and type or level |
| Registry.EntryBelongs | crates/estafeta-server/src/processing/processor.rs:205-252 | among colon-free slugs the entry found belongs to the pair looked up |
| Chronicle.CachedIsOk | crates/estafeta-server/src/processing/processor.rs:199-318 | cache entries that are answers the database once gave name registered types and levels, however old they are |
| Chronicle.DecisionOnAllRows | crates/estafeta-server/src/db/mute_rules.rs:64-78 | a decision on preferences loaded by four queries while the rows change is the decision on all the rows those queries saw, ended mute rules included |
| Chronicle.LoadedRulesAreActive | crates/estafeta-server/src/db/mute_rules.rs:64-78 | a preference load keeps exactly the rules that have not ended, and everything else |
| Chronicle.UserRowsMeans | crates/estafeta-server/src/processing/processor.rs:272-290 | a user's rows are theirs, and a user without any is delivered everything |
| Chronicle.TypeInMeans | crates/estafeta-server/src/db/schemas.rs:86-95 | a type is found under its service's slug and its key, in its last version |
| Chronicle.LevelInMeans | crates/estafeta-server/src/processing/processor.rs:250-256 | a level is found under its service's slug and its key |
| Processor.TypeAnswerFits | crates/estafeta-server/src/processing/processor.rs:81-108 | whatever a type lookup answered, cached however long ago or loaded, is a version of a registered type, among colon-free slugs of the one asked for, then and ever after |
| Processor.Processor.GetOrLoadType | crates/estafeta-server/src/processing/processor.rs:199-238 | a hit is the cached type; a miss is what the database says during the load, so a registered type is found and an unknown service is not, and is cached |
| Processor.Processor.GetOrLoadLevel | crates/estafeta-server/src/processing/processor.rs:240-270 | fails exactly for an uncached level of an unknown service; a hit is the cached level, a miss is what the database says during the load, possibly no level; among colon-free slugs it belongs to the service asked for |
| Processor.Processor.GetOrLoadPrefs | crates/estafeta-server/src/processing/processor.rs:272-318 | the cached preferences, else what four queries in a row return while others change the rows, the rules filtered as read; they are then cached |
| Processor.Processor.Insert | crates/estafeta-server/src/db/notifications.rs:47-77 | succeeds exactly if id and idempotency key are free, as the cluster's insert, and changes nothing otherwise |
| Processor.Processor.ProcessMessage | crates/estafeta-server/src/processing/processor.rs:73-197 | fails on an unknown type or service or a taken id or key; else exactly one insert of the cluster with the version and level looked up, unseen exactly if the rows of the user's cached or just read preferences say so, unfiltered, at an instant of the call; then the outcome the faults lead to, success included if only the publish fails, and one event exactly if unseen and nothing went wrong; references are registered, and the message's own among colon-free slugs, however stale the caches |
| Processor.DecidedMeans | crates/estafeta-server/src/processing/preference_resolver.rs:21-116 | the decision of `process_message` said outright, by the rows read, the type used, the level's severity and the time |
| Processor.RecordedRow | crates/estafeta-server/src/processing/processor.rs:120-165 | the row `process_message` leaves, column by column |
| Processor.Processor.Run | crates/estafeta-server/src/processing/processor.rs:39-71 | every message has the outcome its answers and faults lead to, as recorded in the database's history; every message acknowledged, or failed only after its insert, has its row with all its references; and the events are those of the announced messages in order |
| Attempts.RecordIsAttempt | crates/estafeta-server/src/processing/processor.rs:47-197 | every message a processor's run handles is an attempt of the pipeline: in any pipeline mirroring the database the outcome's steps, acknowledgement or nak included, are possible and lead to one that mirrors it again, with the same event and acknowledgement |
| Processor.Processor.UpdateType | crates/estafeta-server/src/grpc/schema_registry.rs:107-149 | succeeds exactly if the service is there at its lookup and the type at the write; then adds the request as a new version, changes nothing else and leaves no cached copy under the key |
| Processor.AddedIsFound | crates/estafeta-server/src/grpc/schema_registry.rs:107-149 | after an update a lookup in the database finds the type as requested |
| Preferences.FilteringAtLoadIsHarmless | crates/estafeta-server/src/db/mute_rules.rs:64-78 | resolving over the rules active at load time gives, at any later time, the same result as over all rules |
| Preferences.DeliveryIsConjunction | crates/estafeta-server/src/processing/preference_resolver.rs:21-116 | with one preference per service and type, delivered exactly if the user is on, no rule that has not ended is for the type's service or all and for the type or all, no service preference is off or asks for more severity, and no type preference is off; the type's defaults go through |
| Preferences.ReasonIsFirst | crates/estafeta-server/src/processing/preference_resolver.rs:26-105 | exactly when each reason for skipping is given |
| Preferences.OtherRulesDoNotMatter | crates/estafeta-server/src/processing/preference_resolver.rs:38-56 | a mute rule for another service or another type makes no difference |
| Preferences.OrderDoesNotMatter | crates/estafeta-migrations/migrations/0006_create_user_preferences.sql:12-29 | the order of the rows does not matter, not even for the reason |
| Preferences.DeliveryOnlyOpensUp | crates/estafeta-server/src/processing/preference_resolver.rs:38-56 | what is delivered now is delivered ever after; what is skipped now is delivered some day exactly if it would be without the rules that end |
| ProtoConvert.JsonRoundTrip | crates/estafeta-server/src/grpc/proto_convert.rs:32-68 | JSON to protobuf and back replaces each number by its double and nothing else; identity exactly if all are doubles; idempotent |
| ProtoConvert.ProtoRoundTrip | crates/estafeta-server/src/grpc/proto_convert.rs:32-68 | protobuf to JSON and back turns missing kinds, odd null tags and non-finite numbers into the plain null and nothing else; identity exactly on values without them; idempotent |
| ProtoConvert.StructRoundTrips | crates/estafeta-server/src/grpc/proto_convert.rs:8-30 | exactly objects become structs, and both round trips of the public functions are the two normalisers |
| ProtoConvert.ToProtoRepresents | crates/estafeta-server/src/grpc/proto_convert.rs:50-68 | the protobuf value says the same as the JSON value, kind by kind, at any depth |
| ProtoConvert.CleanedRepresents | crates/estafeta-server/src/grpc/proto_convert.rs:32-48 | a protobuf value, cleaned, says the same as the JSON value it becomes |
| ProtoConvert.IntegerBecomesNearest | crates/estafeta-server/src/grpc/proto_convert.rs:54 | an integer of either sign becomes a nearest double of either sign |
| ProtoConvert.TiesToEven | crates/estafeta-server/src/grpc/proto_convert.rs:54 | half-way between two doubles the even significand is taken |
| ProtoConvert.FirstLost | crates/estafeta-server/src/grpc/proto_convert.rs:54 | 2^53 + 1 is rounded to 2^53 |
| ProtoConvert.IntegersThatSurvive | crates/estafeta-server/src/grpc/proto_convert.rs:54 | an integer becomes a nearest double, keeps its value exactly if it is a 53-bit significand times a power of two, and then never changes again |
| ProtoConvert.RoundingIsMonotone | crates/estafeta-server/src/grpc/proto_convert.rs:54 | becoming doubles keeps integers in order |

## Left out

- Processor.Processor.ProcessMessage: a lookup query that fails is not an outcome here; it ends the attempt before its insert, which is `Refuse` in Ingestion.
- Scheduler.RunEscalation: a SELECT that fails before any row is fetched is not modelled, as such a pass does nothing.
- Scheduler.RunSweep: likewise for an UPDATE that fails without taking effect.
- ProtoConvert.StructRoundTrips: signed zeros and NaN payloads are not told apart, since doubles are modelled as real numbers.
- Values where the source has shared objects: the connection pool and the caches are fields of the processor and the database objects that are reassigned, so aliasing of cached `Arc` values is not captured; the cluster, sweep, pipeline and cache protocols are state machines on values.
- Columns no lifecycle statement reads or writes: payload, group key, metadata, URL, icon, tenant.
- Offset pagination of the list calls.
- JSON Schema validation, which is a library's; authentication and authorisation; configuration and start-up.
- NATS Core fan-out and the streaming relay: an event log stands for what is published.
- Global policy limits and a request's own TTL, which are stored or carried but never enforced.
- PostgreSQL below the row-lock step: index layout, isolation anomalies, JSONB normalisation.
- The string and number encodings of states and actions.
