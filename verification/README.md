# Verified model of the LDAP/PostgreSQL administration backend

This Dafny project models the state machines behind the administration backend and its browser client,
and proves what they are meant to guarantee: over every run where a claim is about runs, over every input
where it is about one call.

| part | files | main results |
|---|---|---|
| Audit forwarding between master and slaves | `ClusterModel`, `ClusterService`, `QueueLifecycle`, `ClusterProtocol`, `ClusterDelivery`, `ClusterNetwork`, `FlushSteps`, `ClusterCases` | exactly-once delivery however late requests arrive, no loops, conservation, termination |
| LDAP and database reconciliation | `SyncModel`, `SyncService`, `SyncCases`, `UserService`, `UserCases` | the discrepancy table mirrors the differences; user operations and repairs agree with the next scan |
| Login, MFA and lockout | `Redis`, `AuthModel`, `AuthService`, `AuthProtocol`, `AuthCodes`, `AuthCases` | who gets tokens, single use of challenges, when a code is accepted, exact guessing rate |
| Refresh tokens | `Tokens` | a spent token stays refused |
| Browser refresh coordinator | `RefreshModel`, `RefreshCoordinator`, `RefreshCases` | safety under every interleaving, fate of queued requests |
| Password reset by one-time code | `ResetModel`, `ResetService`, `ResetBounds`, `ResetCases` | guessing bound, one LDAP write per request |
| Certificates | `ShieldModel`, `ShieldService`, `ShieldProtocol`, `ShieldCases` | exactly one active per type, inventory against the certificates in place |
| Account locks and expiry | `AccountLock`, `LockCases` | lock attributes stay consistent, sweep counters, lifetime of a password |
| Consumer bootstrap | `Shell`, `Provision`, `ProvisionService` | quoting read back by the shell, sequential replacement, single use of tokens |

Code that changes tables, Redis keys or module variables is a class whose methods change its fields step
by step; each method's `ensures` ties the new state to a function on values. The results are lemmas about
those functions and about their runs. A run is a sequence of steps with their clock readings and the
outcomes of the outside world (LDAP, HTTP, helpers) as parameters, so a lemma about all runs covers every
combination of outcomes. The `*Cases` modules fix each operation on the columns themselves: which answer it gives when,
and what each column holds afterwards, with times in microseconds. `dafny verify dfyconfig.toml` checks everything.

## What the code does differently from what it says

- The duplicate check of a receive compares three columns (`cluster_service.py:430-439`), while its
  documentation names four (403-404). `ActorDoesNotSeparate` gives the consequence, and `ExactlyOnce`
  needs its hypothesis `Stamped` for this reason. Rows added earlier in one batch are not seen by the query because the
  session does not autoflush (`core/db.py:72-78`); `IngestKeepsUnique` says when that matters.
- `update_user` is said to repair an orphan automatically (`ldap_user_service.py:391`). It adds the row, but
  the stores then agree only under the condition of `UpdateAdoptsIff`, with `AdoptedUserDrifts` an instance of the
  failure; `UpdateAgreesIff` gives the one case in which it breaks an agreement, `RenamingCnDrifts` an instance.
- A kept discrepancy record has its diff refreshed but not its row id or DN (`sync_service.py:160-162`), and a refused
  LDAP call is not noticed (`core/ldap.py:156`, `sync_service.py:309-318`), so a repair can close a record without
  repairing; `RepairThenRescan` states the exact condition, `KeptRecordCanBeStale` and `RefusedDeleteRepairsNothing`
  are instances.
- A used TOTP code is not always refused while it would still verify: `CodeIsAcceptedIff` says when it is refused,
  `NoCodePassesTwice` and `ReplayIsCoveredIff` what that means for one time step. `EarlyCodePassesTwice`,
  `OtherSpellingPasses` and `EnrolmentCodePassesAgain` are runs that take one code twice.
- The lock guards passwords only. `CodeTriesAtMostChallenges` is the limit that holds for codes; they have no rate
  (`CodeTriesHaveNoRate`), and a challenge issued before the lock still works (`LockDoesNotStopCodes`).
- The flush loads its items before it posts and writes them after. A node deleted in between can turn an abandoned item
  into a failed one: `LifecycleIff` gives the exact condition, `DeletedNodeRevives` an instance, `DeletedNodeRollsBack`
  what happens after a success.
- When a refresh fails, the queue is only emptied: `QueuedRequestFate` proves that its requests never settle.
- The replace loop of the bootstrap script is not simultaneous. `BootstrapAssigns` says, for all values, what the script
  assigns, and `BootstrapAssignsValuesIff` when that is what it was given; `LaterPlaceholderIsReplaced` is the case of a value that is a later placeholder. That no value contains a
  later placeholder is sufficient for `BootstrapAssignsValues` and not necessary: such a value survives when the
  later variable's value happens to restore it, for example by being its own placeholder.
- `activate_certificate` accepts a CLIENT certificate (`shield_service.py:518`) and sends it to the server helper, which
  demands a private key (`deployment/shield/mtl-cert-apply:87-88`) that only SERVER uploads stage: `ClientIsNeverActive`.
- The bundle helper applies the CA first (`deployment/shield/mtl-cert-apply:183-187`), its rollback restores nothing when
  there is no backup file (95-98), and it can finish after the caller's timeout (`shield_service.py:449-472`):
  `ActiveIsLiveIff` says exactly when the inventory and the certificates in place agree, `HalfBundleParts` and
  `FailedCallParts` are runs in which they do not.
- The account locks are best effort: `PartialWriteIff` and `HalfLockedIff` say which failures leave them inconsistent,
  `ForcedChangeWithoutLock` is an instance.

## Model

| member | source | states |
|---|---|---|
| `ClusterService.NodeStore.LogEvent` | backend/app/services/audit_service.py:24-84 | log_event appends one row stamped with its own node and queues exactly one pending item for each forwarding target |
| `ClusterService.NodeStore.EnqueueAuditEvent` | backend/app/services/cluster_service.py:219-266 | a master forwards to every slave; a slave forwards only its own events, to every master; anything else queues nothing |
| `ClusterService.NodeStore.FlushQueueOnce` | backend/app/services/cluster_service.py:274-385 | the whole new queue, the counters and the requests: the due items queued first are taken, each is marked once by its own target's outcome, every other item is untouched, processed = sent + failed |
| `ClusterService.NodeStore.GroupByTarget` | backend/app/services/cluster_service.py:297-303 | the target groups list each selected item once, in queue order |
| `ClusterService.NodeStore.MarkGroup` | backend/app/services/cluster_service.py:304-374 | only the items of the group change, each to the state that its outcome prescribes |
| `ClusterService.NodeStore.IngestAuditEvents` | backend/app/services/cluster_service.py:393-480 | the log grows by exactly the rows whose three-column key it did not hold, and inserted + skipped is the batch size |
| `ClusterService.NodeStore.AdminDeleteNode` | backend/app/services/cluster_service.py:525-548 | pending and failed items of the node become abandoned, the others stay; a master is never deleted |
| `ClusterService.RoundsMeaning` | backend/app/services/cluster_service.py:297-374 | the loop over the groups equals marking every selected item pointwise, in whatever order the targets come |
| `ClusterService.FlushMeaning` | backend/app/services/cluster_service.py:274-385 | a flush is a partition: all selected items are marked, none twice, and the two counters add up to the batch |
| `ClusterService.PostsMeaning` | backend/app/services/cluster_service.py:304-340 | one request per registered target, whose body is that target's events in queue order and nothing else |
| `ClusterModel.CopyIsExact` | backend/app/services/cluster_service.py:453-469 | the receiver's row equals the sender's, column by column, exactly when no text column is empty and the agent is within its limit |
| `ClusterModel.IngestKeys` | backend/app/services/cluster_service.py:415-471 | after a batch the log's keys are its old keys and the batch's |
| `ClusterModel.IngestIsIdempotent` | backend/app/services/cluster_service.py:430-442 | a batch delivered twice leaves the log as after the first delivery |
| `ClusterModel.RedeliveryInsertsNothing` | backend/app/services/cluster_service.py:430-442 | a batch whose keys are all stored inserts nothing |
| `ClusterModel.IngestKeepsUnique` | backend/app/services/cluster_service.py:415-473 | keys stay unique if and only if the batch has no two new events with one key, since rows added earlier in the batch are not seen |
| `QueueLifecycle.MarkEvolves` | backend/app/services/cluster_service.py:342-372 | one attempt: attempts never pass the maximum, nothing returns to pending, the next attempt waits for min(2^k, 60) minutes |
| `QueueLifecycle.AbandonEvolves` | backend/app/services/cluster_service.py:536-545 | deleting a node moves only pending and failed items, and leaves its items sent or abandoned |
| `QueueLifecycle.FlushSpendsBudget` | backend/app/services/cluster_service.py:283-374 | a flush that selects something strictly lowers the attempts that pending items still have |
| `ClusterProtocol.StepIsSafe` | backend/app/services/cluster_service.py:219-480 | every step of master and slaves keeps: queues hold only own events, foreign rows are genuine copies, a sent item's key is in the target's log, logs and queues only grow |
| `ClusterProtocol.RunIsSafe` | backend/app/services/cluster_service.py:219-480 | the same over all runs, with lost acknowledgements, crashes before commit, registrations and deletions in between |
| `ClusterDelivery.ExactlyOnce` | backend/app/services/cluster_service.py:274-480 | if no two events of one node share node, instant and code, an item marked sent has left exactly one row with those three columns in its target's log, the copy of its event, and no log holds the three columns twice |
| `ClusterDelivery.StoredIffKeyWasNew` | backend/app/services/cluster_service.py:430-442 | without that hypothesis: a received event is stored if and only if its key was not in the log |
| `ClusterDelivery.ActorDoesNotSeparate` | backend/app/services/cluster_service.py:403-438 | the documented fourth key field is not compared: of two events that differ only in the actor the second is dropped |
| `ClusterDelivery.NoForwardingLoops` | backend/app/services/cluster_service.py:229-233 | a row received from elsewhere is in no item of the receiver's queue and was logged at the node it names, so an event crosses at most one link |
| `ClusterDelivery.ItemsAreConserved` | backend/app/services/cluster_service.py:235-266 | the items of a queue are as many as the targets registered when each of its node's events was logged, summed up |
| `ClusterDelivery.NothingIsDropped` | backend/app/services/cluster_service.py:274-374 | in every later state an event's item is still being tried, stored at its target, out of attempts, or abandoned |
| `ClusterDelivery.ItemHistory` | backend/app/services/cluster_service.py:342-372 | along any run an item keeps its payload and target, never returns to pending, and attempts lie at least the backoffs apart |
| `ClusterDelivery.FailureTakesHalfAnHour` | backend/app/services/cluster_service.py:353-368 | in every run, an item that has ended in failed was tried five times, the last at least 30 minutes after the first, which the run contains |
| `ClusterDelivery.FirstAttempt` | backend/app/services/cluster_service.py:354-368 | an item that has been tried has a moment in its run at which it had been tried exactly once |
| `ClusterDelivery.FlushesTerminate` | backend/app/services/cluster_service.py:283-374 | once nothing more is logged, only boundedly many flushes of a node do anything, whatever the network does |
| `ClusterModel.DueIsExhaustive` | backend/app/services/cluster_service.py:283-290 | the query takes the due items that were queued first, and leaves one behind only when the batch is full |
| `ClusterNetwork.ExactlyOnceHoweverLate` | backend/app/services/cluster_service.py:343-480 | exactly once even when requests that their sender gave up on arrive late, out of order or repeatedly, after any other steps |
| `ClusterNetwork.MoveIsSound` | backend/app/services/cluster_service.py:219-480 | every step and every late arrival keeps the four invariants, and every request ever made carries genuine copies |
| `ClusterNetwork.LateDuplicateIsIgnored` | backend/app/services/cluster_service.py:430-442 | a second arrival of one request changes no log |
| `FlushSteps.LifecycleIff` | backend/app/services/cluster_service.py:283-384 | with the flush in steps and deletions in between: each step that is not rolled back keeps every item on its lifecycle, except exactly when it marks an item whose node was deleted during its POST and the POST was the last attempt (or succeeded unnoticed) |
| `FlushSteps.RunKeeps` | backend/app/services/cluster_service.py:283-384 | however log events and deletions interleave with the steps, attempts never pass the maximum and a pending item has attempts left |
| `FlushSteps.RollbackRestores` | backend/app/services/cluster_service.py:384 | a rollback leaves each selected item as it was loaded, or abandoned with its node |
| `FlushSteps.DeletedNodeRevives` | backend/app/services/cluster_service.py:353-369 | an abandoned item that ends as failed, because its node was deleted during its last POST |
| `FlushSteps.DeletedNodeRollsBack` | backend/app/services/cluster_service.py:371-374 | when that POST succeeds, updating the deleted node row raises and only the deletion remains |
| `FlushSteps.StepsMakeTheFlush` | backend/app/services/cluster_service.py:274-385 | with nobody in between, the steps come to what the flush in one step does |
| `ClusterDelivery.BothInstantsAreStored` | backend/app/services/cluster_service.py:415-471 | two events of one node at different instants whose items for one target are sent are two different rows of that target's log |
| `ClusterCases.StoredIffColumnsAreNew` | backend/app/services/cluster_service.py:430-442 | event i of a batch is stored if and only if no row that was there before equals it in server_node, occurred_at and event_code |
| `ClusterCases.InsertedCount` | backend/app/services/cluster_service.py:430-473 | the receive loses no row and inserts as many as the batch has events whose three columns are new |
| `ClusterCases.ColumnsArrive` | backend/app/services/cluster_service.py:453-469 | each argument of log_event arrives in its own column of the receiver's row |
| `ClusterCases.MissingFields` | backend/app/services/cluster_service.py:416-469 | what a receive writes for each field that is missing, empty or unreadable, and that it copies the others |
| `ClusterCases.TargetsMeaning` | backend/app/services/cluster_service.py:233-249 | the targets are the registered nodes of the type, each row once |
| `ClusterCases.ForwardsByRole` | backend/app/services/cluster_service.py:219-249 | a master forwards to exactly its registered slaves, a slave its own events to its registered masters and other events to nobody |
| `ClusterCases.NewItemIsDue` | backend/app/services/cluster_service.py:251-266 | a new item carries one event, has five attempts and is selected by a flush at once |
| `ClusterCases.BackoffMinutes` | backend/app/services/cluster_service.py:364-368 | 2, 4, 8, 16 and 32 minutes after the first five attempts, then 60 |
| `ClusterCases.FlushCases` | backend/app/services/cluster_service.py:304-374 | one item after a flush, column by column, by whether it was selected, its node is registered and the post was acknowledged |
| `ClusterCases.SentAreCounted` | backend/app/services/cluster_service.py:342-385 | the number reported as sent is the number of selected items that end as sent |
| `ClusterCases.FlushStepCases` | backend/app/services/cluster_service.py:274-480 | a flush stores its batch at each registered node that its request reaches, whether or not the reply comes back, and changes no other node |
| `ClusterCases.FlushStepQueue` | backend/app/services/cluster_service.py:343-374 | the queue after a flush of the cluster: a node that does not exist is one that does not answer |
| `ClusterCases.RegisterCases` | backend/app/services/cluster_service.py:85-122 | registering adds a node once, rewrites the entry of a known one and leaves the others |
| `ClusterCases.DeleteStepCases` | backend/app/services/cluster_service.py:525-548 | only a registered slave is deleted, and exactly its pending and failed items are abandoned |
| `ClusterCases.RemovedFromRegistry` | backend/app/services/cluster_service.py:546-548 | the deletion takes that one row out of the registry and keeps the order of the others |
| `ClusterCases.WrittenColumns` | backend/app/services/cluster_service.py:304-374 | which columns the marking of an open flush writes over a row as it is stored by then |
| `ClusterCases.FlightEnds` | backend/app/services/cluster_service.py:384 | a commit keeps what the flush has written and a failure puts back each row it had written |
| `ClusterCases.DeletionWaits` | backend/app/services/cluster_service.py:525-548 | a deletion goes through unless the open flush holds the rows of that node |
| `ClusterCases.ArrivalIsStored` | backend/app/services/cluster_service.py:343-480 | a late request is stored by its target and changes nothing else |
| `ClusterCases.FlushPosts` | backend/app/services/cluster_service.py:297-343 | each flush makes one request for each registered node, with the events selected for it |
| `SyncService.SyncStore.ScanUserSync` | backend/app/services/sync_service.py:35-209 | whatever duplicates were there, the unresolved records end in bijection with the differences; kept + superseded + auto_resolved = previously unresolved, kept + added = differences; each counter is the size of its set |
| `SyncService.SyncStore.AddDrifts` | backend/app/services/sync_service.py:109-147 | the comparison loop yields exactly the reference differences, their counts and the agreeing users |
| `SyncService.SyncStore.Reconcile` | backend/app/services/sync_service.py:149-176 | the record-by-record update leaves one unresolved record per difference and touches no resolved record |
| `SyncService.SyncStore.GetSyncStatus` | backend/app/services/sync_service.py:228-257 | the status counts: unresolved records, by kind, and max(0, total - unresolved) |
| `SyncService.SecondScanIsQuiet` | backend/app/services/sync_service.py:149-187 | a second scan of an unchanged world adds, supersedes and auto-resolves nothing, although the first one stamped rows |
| `SyncModel.WalkMirrors` | backend/app/services/sync_service.py:158-170 | any table becomes a mirror of the keys seen: no duplicates, no stale records, current diffs |
| `SyncModel.WalkPartitions` | backend/app/services/sync_service.py:158-170 | every unresolved record is kept, superseded or auto-resolved, and resolved ones stay as they are |
| `SyncModel.MirrorIsFixpoint` | backend/app/services/sync_service.py:158-175 | a table that mirrors the differences is left unchanged, with nothing missing |
| `SyncModel.DifferenceKeysMeaning` | backend/app/services/sync_service.py:85-143 | the reference set has a key exactly when the stores disagree about that user in that way |
| `SyncModel.EnumerationGivesView` | backend/app/services/sync_service.py:52-64 | a search that lists each entry once gives the scan exactly the view of the directory |
| `SyncModel.PartitionOfMetas` | backend/app/services/sync_service.py:96-147 | every metadata row is an orphan, agrees, or drifts in one or both ways, counted by inclusion and exclusion |
| `SyncModel.DifferenceCount` | backend/app/services/sync_service.py:85-143 | the number of differences is the sum of the four kinds |
| `SyncModel.StatusNeverOverstates` | backend/app/services/sync_service.py:249-257 | right after a scan the status count is at most the scan's in_sync; when that is positive, equality holds if and only if there is no orphan_ldap and no user with both drifts |
| `SyncCases.FlagIsOnIff` | backend/app/services/sync_service.py:63 | the MFA flag of an entry is on if and only if its first value spells "true" in any mix of cases, and off when there is none |
| `SyncCases.ViewMeaning` | backend/app/services/sync_service.py:58-64 | the first mail, the first displayName or else the first cn, and the DN of the entry |
| `SyncCases.KnownUsers` | backend/app/services/sync_service.py:52-58 | the scan knows exactly the users that some entry names by its first uid |
| `SyncCases.LastEntryWins` | backend/app/services/sync_service.py:52-64 | of several entries with one uid it keeps the last |
| `SyncCases.CommonUserCases` | backend/app/services/sync_service.py:107-147 | for a user of both stores, on the texts themselves: which records the scan makes, and when it counts the user as in sync |
| `SyncCases.CommonUserRecords` | backend/app/services/sync_service.py:111-143 | what such a record holds: the DN of the entry, the id of the row and exactly the values that differ |
| `SyncCases.OrphanCases` | backend/app/services/sync_service.py:85-105 | a user of one store alone has exactly its orphan record with that store's values, and is never in sync |
| `SyncCases.CountedUsers` | backend/app/services/sync_service.py:85-147 | the users counted under a kind are those with a record of that kind |
| `SyncCases.EnabledUserAgrees` | backend/app/services/sync_service.py:109-147 | a user with LDAP flag "TRUE", "true" or "True", stored flag on and equal mail and name is in sync and has no record |
| `SyncCases.StampedColumns` | backend/app/services/sync_service.py:144-187 | the scan stamps exactly the agreeing users with its own time and changes no other column |
| `SyncCases.RecordFate` | backend/app/services/sync_service.py:158-170 | the first open record of a difference stays open with the new values, a later one is superseded, one whose difference has gone is auto-resolved, a closed one is left alone |
| `SyncCases.ClosedAreCounted` | backend/app/services/sync_service.py:158-170 | the two counters are the numbers of records closed in either way |
| `SyncCases.OpenAreCounted` | backend/app/services/sync_service.py:228-257 | the status page counts the open records, in all and by kind |
| `SyncCases.StatusShown` | backend/app/services/sync_service.py:249-257 | it shows as in sync what is left of the metadata rows when one is taken off for each open record, never below 0 |
| `SyncCases.OneOpenRecordEach` | backend/app/services/sync_service.py:149-176 | after a scan each difference has exactly one open record, with its current values |
| `UserService.UserStore.Create` | backend/app/services/ldap_user_service.py:147-232 | create_user, with its refusals, writes exactly the new entry and the new row |
| `UserService.UserStore.Update` | backend/app/services/ldap_user_service.py:333-418 | update_user, with its refusals, changes exactly the named attributes in both stores, or adds the missing row |
| `UserService.UserStore.Delete` | backend/app/services/ldap_user_service.py:426-460 | delete_user, with its refusals, removes the user from both stores |
| `UserService.UserStore.ResolveDiscrepancy` | backend/app/services/sync_service.py:260-371 | an action is applied only where allowed for the record's type; the record is closed unless the action raises, whether or not a refused LDAP call left anything undone; anything else changes nothing |
| `UserService.CreateAgrees` | backend/app/services/ldap_user_service.py:147-232 | after create_user a scan finds nothing about the user, through the displayName/cn fallback and the empty-to-None rule, and other users are as before |
| `UserService.DeleteAgrees` | backend/app/services/ldap_user_service.py:426-460 | after delete_user a scan finds nothing about the user, and other users are as before |
| `UserService.UpdateAgreesIff` | backend/app/services/ldap_user_service.py:333-418 | update_user keeps an agreeing user agreeing except in exactly one case: no displayName in LDAP, none given, and a changed cn |
| `UserService.RenamingCnDrifts` | backend/app/services/ldap_user_service.py:347-385 | that case happens: the scan then reports an attribute drift |
| `UserService.UpdateAdoptsIff` | backend/app/services/ldap_user_service.py:389-413 | for a user only LDAP has, update_user ends in agreement exactly when the request names every value the entry has and its MFA flag is off |
| `UserService.AdoptedUserDrifts` | backend/app/services/ldap_user_service.py:389-400 | the condition is needed: an update that does not name the mail of an entry only LDAP has leaves an attribute drift |
| `UserService.RepairThenRescan` | backend/app/services/sync_service.py:284-371 | an allowed action other than ignore that does not raise removes its difference from the next scan if and only if the record still points at the row or entry and the LDAP call of delete_ldap or sync_attribute was accepted; then the scan finds nothing about the user, so both drifts go at once, otherwise it finds the same difference again |
| `UserService.RepairRaisesIff` | backend/app/services/sync_service.py:305-353 | when an action raises and so leaves the record open |
| `UserService.RefusedDeleteRepairsNothing` | backend/app/services/sync_service.py:309-318 | a refused delete_ldap on a record that points home closes the record and changes nothing |
| `UserService.FreshRecordPointsHome` | backend/app/services/sync_service.py:85-143 | a record that the last scan created always points home |
| `UserService.KeptRecordCanBeStale` | backend/app/services/sync_service.py:160-162 | a kept record has its diff refreshed but not its row id, so delete_db on it can delete nothing and still close it |
| `UserService.IgnoredIsFoundAgain` | backend/app/services/sync_service.py:158-175 | after ignore the next scan records exactly that difference again |
| `UserCases.CreateRefusals` | backend/app/services/ldap_user_service.py:147-200 | when create_user gives which of its four refusals, and that none of them writes |
| `UserCases.CreatedColumns` | backend/app/services/ldap_user_service.py:164-232 | what create_user writes into the entry and into the row, and that it touches no other user |
| `UserCases.UpdateRefusals` | backend/app/services/ldap_user_service.py:333-388 | when update_user refuses; a request that changes nothing needs no LDAP call |
| `UserCases.UpdatedColumns` | backend/app/services/ldap_user_service.py:347-413 | which attributes and columns update_user writes for each field of the request, empty mail included, and what a missing row is given |
| `UserCases.DeleteCases` | backend/app/services/ldap_user_service.py:426-460 | when delete_user refuses, and that it removes exactly this user from both stores |
| `UserCases.AllowedTable` | backend/app/services/sync_service.py:284-300 | which action a record admits, by its kind |
| `UserCases.DeleteDbEffect` | backend/app/services/sync_service.py:305-308 | delete_db removes the rows with the recorded id and no other |
| `UserCases.DeleteLdapEffect` | backend/app/services/sync_service.py:309-318 | delete_ldap removes the entries at the recorded DN, for each outcome of the call |
| `UserCases.CreateDbEffect` | backend/app/services/sync_service.py:319-347 | create_db writes the values of the entry into a new row unless there is one, and raises without an entry |
| `UserCases.SyncAttributeEffect` | backend/app/services/sync_service.py:348-363 | sync_attribute copies the values of the entry into exactly the rows with the recorded id |
| `AuthService.AuthStore.RegisterFailedLogin` | backend/app/services/admin_service.py:72-92 | the counter rises, and from the fifth failure on every one locks for 15 minutes from now |
| `AuthService.AuthStore.RegisterSuccessfulLogin` | backend/app/services/admin_service.py:95-102 | counter and lock are cleared, nothing else of the account changes |
| `AuthService.AuthStore.FinalizeLogin` | backend/app/services/auth_service.py:418-498 | tokens unless the password must change or has expired; the counter is cleared either way |
| `AuthService.AuthStore.TryLogin` | backend/app/services/auth_service.py:53-161 | login in the order of its checks: unknown, inactive, locked, wrong password, MFA set-up, challenge, tokens |
| `AuthService.AuthStore.ConsumeMfaChallenge` | backend/app/services/auth_service.py:589-597 | a live challenge names its admin and is deleted; anything else changes nothing |
| `AuthService.AuthStore.CompleteMfaChallenge` | backend/app/services/auth_service.py:164-214 | the second factor in the order of its checks; the challenge is gone whatever the outcome |
| `AuthService.AuthStore.AdminResetPassword` | backend/app/services/admin_management_service.py:467-510 | an admin reset, unless refused on a slave, for an unknown account or by the policy, sets the password and clears counter and lock |
| `AuthProtocol.TokensAreEarned` | backend/app/services/auth_service.py:53-214 | over all runs a step hands tokens to an admin if and only if it earned them: active, password neither to be changed nor expired, correct password while not locked, and with MFA active or required only through a challenge that such a check issued less than 5 minutes before, with a valid code not marked used |
| `AuthProtocol.ChallengeHasOrigin` | backend/app/services/auth_service.py:581-586 | every live challenge was issued by an earlier correct password check of that admin and expires 300 s after it |
| `AuthProtocol.ChallengeIsSpentOnce` | backend/app/services/auth_service.py:589-597 | once read, a challenge id is refused in every later step of every run |
| `AuthProtocol.NoCodePassesTwice` | backend/app/services/auth_service.py:186-213 | one code in one spelling never passes twice as the code of one time step unless it was first used more than 5 s before the step began |
| `AuthCodes.CodeIsAcceptedIff` | backend/app/services/auth_service.py:186-213 | in every run, a code that verifies on a live challenge is accepted if and only if no challenge accepted it in the same spelling within the last 65 seconds |
| `AuthCodes.UsedIffAcceptedLately` | backend/app/services/mfa.py:82-90 | in every run a code counts as used exactly for 65 seconds after each time it was accepted |
| `AuthCodes.EnrolmentCodePassesAgain` | backend/app/services/auth_service.py:333-388 | a code that enabled MFA is not marked and passes the next challenge |
| `AuthCodes.LockDoesNotStopCodes` | backend/app/services/auth_service.py:164-214 | a challenge is answered the same whether or not the account is locked by now |
| `AuthCodes.CodeTriesAtMostChallenges` | backend/app/services/auth_service.py:135-160 | in every run, codes compared for an admin are at most the challenges issued after correct passwords |
| `AuthCodes.CodeTriesHaveNoRate` | backend/app/services/auth_service.py:164-214 | codes have no rate as passwords have: for every n a run compares n of them at one instant without a reset |
| `AuthService.AuthStore.VerifyAndEnableMfa` | backend/app/services/auth_service.py:333-388 | a pending secret becomes the account's when its code verifies; the code is neither looked up nor marked |
| `AuthService.AuthStore.DisableMfa` | backend/app/services/auth_service.py:390-411 | MFA goes when a code of its secret verifies; the code is neither looked up nor marked |
| `AuthCodes.EarlyCodePassesTwice` | backend/app/services/mfa.py:87-90 | that happens for one spelling: a code of step 2 used 30 s before its step passes again 66 s later |
| `AuthCodes.OtherSpellingPasses` | backend/app/services/mfa.py:64-84 | and at once for two spellings, since the mark is kept under the code as typed |
| `AuthModel.StepValidity` | backend/app/services/mfa.py:64-72 | with window 1 a code is accepted from 30 s before its step to 60 s after its start |
| `AuthModel.ReplayIsCoveredIff` | backend/app/services/mfa.py:82-90 | the 65 s mark covers the whole remaining validity if and only if the code was used no earlier than 5 s before its step (section 5.2 of RFC 6238) |
| `AuthProtocol.LockoutRate` | backend/app/services/admin_service.py:65-102 | from any state, without a reset, W minutes see at most 5 + floor(W/15) comparisons with a wrong password |
| `AuthProtocol.LockoutRateIsAttained` | backend/app/services/admin_service.py:65-102 | for every n there is a run with 5 + n such comparisons in 15 n minutes, so the bound is exact |
| `AuthProtocol.ResetClears` | backend/app/services/admin_service.py:95-102 | a completed login, an admin password reset that is not refused and a removal each clear counter and lock |
| `AuthProtocol.VerifiedIff` | backend/app/services/mfa.py:64-72 | a code verifies if and only if it has six digits and folds to the HOTP value of the current half minute, the one before or the one after |
| `AuthProtocol.PassesForSomeStep` | backend/app/services/auth_service.py:186-213 | every code that is accepted is accepted as the code of some time step in the window |
| `AuthCases.KeptForTtl` | backend/app/services/auth_service.py:581-597 | a key set with a time to live can be read exactly until it has run out, and no other key changes |
| `AuthCases.LoginRefusals` | backend/app/services/auth_service.py:73-117 | unknown, inactive and locked accounts and wrong passwords: the answer to each, and that only a wrong password (for LDAP accounts an empty one or a refused bind) counts, as one failure more |
| `AuthCases.RightPasswordCases` | backend/app/services/auth_service.py:118-161 | what the right password is answered: a 300 s challenge, a 600 s set-up token, a password change or tokens, and what each writes |
| `AuthCases.ChallengeRefusals` | backend/app/services/auth_service.py:164-200 | the refusals of a challenge in their order; all but the first spend it and change nothing else |
| `AuthCases.CodeDecides` | backend/app/services/auth_service.py:186-214 | on a live challenge with a readable secret and an unmarked code: the right codes complete the login and are marked for 65 s, every other one is a failure more |
| `AuthCases.EnableCases` | backend/app/services/auth_service.py:333-388 | when enabling MFA is refused and how, and the two columns it writes |
| `AuthCases.DisableCases` | backend/app/services/auth_service.py:390-411 | when disabling MFA is refused and how, and the two columns it clears |
| `AuthCases.ResetPasswordCases` | backend/app/services/admin_management_service.py:467-510 | the three refusals of an admin reset and the columns it writes |
| `Tokens.TokenStore.BlacklistRefreshToken` | backend/app/services/jwt_service.py:161-173 | the jti is kept for exp - floor(now) seconds, or not at all when that is not positive |
| `Tokens.TokenStore.RefreshTokens` | backend/app/services/auth_service.py:217-248 | rotation: a refused token changes nothing, an accepted one is banned and replaced |
| `Tokens.TokenStore.Logout` | backend/app/services/auth_service.py:251-256 | logout bans a token that decodes and ignores any other |
| `Tokens.BanCoversToken` | backend/app/services/jwt_service.py:161-173 | the ban ends no earlier than exp and less than a second after it (section 4.1.4 of RFC 7519) |
| `Tokens.SpentStaysSpent` | backend/app/services/jwt_service.py:182-194 | a rotated or logged-out refresh token is refused at every later instant of every run, as revoked before exp and as expired after |
| `Tokens.RotationHandsOver` | backend/app/services/auth_service.py:231-242 | at the instant of a rotation the old token is refused already, and the new one is accepted for its seven days |
| `Tokens.OnePairPerToken` | backend/app/services/auth_service.py:217-248 | one refresh token is exchanged for at most one pair |
| `Tokens.UnspentIsAccepted` | backend/app/services/jwt_service.py:182-194 | a genuine refresh token that nobody spent is accepted until it expires |
| `Tokens.RefreshVerdicts` | backend/app/services/jwt_service.py:144-194 | the verdict on a presented refresh token by signature, iat, exp, type and ban |
| `Tokens.ExchangeCases` | backend/app/services/auth_service.py:217-248 | the answer of an exchange, the token it issues and the ban it sets |
| `Tokens.LogoutCases` | backend/app/services/auth_service.py:251-256 | logout bans exactly the refresh tokens that are genuine and in their time |
| `RefreshCoordinator.Client.Request` | frontend/src/lib/api.ts:23-34 | a request carries the current access token unless it has its own Authorization header |
| `RefreshCoordinator.Client.OnError` | frontend/src/lib/api.ts:42-65 | a first 401 of a request outside the two login urls starts the refresh, queues, or rejects without a token; everything else is rejected |
| `RefreshCoordinator.Client.OnRefreshed` | frontend/src/lib/api.ts:71-77 | a successful refresh stores the pair, repeats the queue in order and then the request that started it |
| `RefreshCoordinator.Client.OnRefreshFailed` | frontend/src/lib/api.ts:78-84 | a failed refresh clears session and queue and rejects one request |
| `RefreshModel.CoordinatorIsSafe` | frontend/src/lib/api.ts:36-91 | under every interleaving: at most one refresh in flight, empty queue without one, no request repeated twice, no refresh token sent twice if all granted ones differ |
| `RefreshModel.EventKeeps` | frontend/src/lib/api.ts:36-91 | every event keeps the whole invariant |
| `RefreshModel.RefreshedMeaning` | frontend/src/lib/api.ts:75-79 | exactly the queued requests and the starter are repeated, once each, in order, with the new token |
| `RefreshModel.QueuedRequestFate` | frontend/src/lib/api.ts:58-84 | a queued request is repeated when the refresh succeeds; when it fails it is never repeated, rejected or fulfilled, however long the run |
| `RefreshModel.LogoutIsUndoneIff` | frontend/src/lib/api.ts:71-84 | after a logout with no login since, the session comes back if and only if a refresh in flight at the logout succeeds |
| `RefreshCases.FirstUnauthorized` | frontend/src/lib/api.ts:44-74 | the first 401 of a request whose url contains neither /auth/login nor /auth/refresh: it starts the refresh or joins the queue with a refresh token at hand, and is rejected with the session cleared without |
| `RefreshCases.OtherErrors` | frontend/src/lib/api.ts:44-49 | any other error, a second failure and either of the two urls reject the request and leave session, queue, calls and histories as they were |
| `RefreshCases.RefreshStartsIff` | frontend/src/lib/api.ts:44-74 | a refresh call is posted if and only if such a 401 comes with a token at hand and none in flight |
| `RefreshCases.SentHeader` | frontend/src/lib/api.ts:23-34 | the header a request is sent with, by session and preset header |
| `RefreshCases.AnswerSettles` | frontend/src/lib/api.ts:42-43 | an answer fulfils its request and changes nothing else |
| `RefreshCases.SessionEvents` | frontend/src/lib/api.ts:71-84 | storing or clearing a session leaves requests, queue and the refresh in flight as they are |
| `RefreshCases.RefreshSucceeds` | frontend/src/lib/api.ts:71-91 | what a successful refresh leaves in the session and the queue, and which requests it repeats in which order |
| `RefreshCases.RepeatedColumns` | frontend/src/lib/api.ts:60-79 | each repeated request is on its way again with the new token in its header, and no other request changes |
| `RefreshCases.RefreshFails` | frontend/src/lib/api.ts:80-91 | a failed refresh clears session and queue, rejects its starter and changes no other request |
| `ResetService.ResetStore.RequestReset` | backend/app/services/password_reset_service.py:206-269 | no request for an unknown user, a mismatched contact, or within 60 s of another; else one fresh pending request |
| `ResetService.ResetStore.VerifyOtp` | backend/app/services/password_reset_service.py:327-427 | the newest open request only: already verified, expired, locked, wrong, or verified with its completion token |
| `ResetService.ResetStore.CompleteReset` | backend/app/services/password_reset_service.py:452-527 | only a verified request with a live token reaches LDAP; a refused or failed write leaves it verified |
| `ResetModel.CallEvolves` | backend/app/services/password_reset_service.py:336-517 | a request moves only pending to verified, expired or locked, and verified to completed or expired; an attempt is counted only while pending and below the maximum |
| `ResetModel.LatestIsNewest` | backend/app/services/password_reset_service.py:338-347 | verify_otp looks at the newest open request of the user |
| `ResetBounds.RequestsAreSafe` | backend/app/services/password_reset_service.py:234-269 | accepted requests of a user are more than 60 s apart; each has as many comparisons as attempts, at most 5, all between issue and expiry |
| `ResetBounds.GuessingBound` | backend/app/services/password_reset_service.py:234-427 | any window of W seconds of any run sees at most 5 (floor((W + 300) / 60) + 1) code comparisons for a user |
| `ResetBounds.WriteFollowsRightCode` | backend/app/services/password_reset_service.py:461-517 | LDAP takes a password only from the completion token of an earlier right code, given before expiry and at most 10 minutes ago |
| `ResetBounds.OneWritePerRequest` | backend/app/services/password_reset_service.py:491-517 | LDAP takes at most one password per request, and exactly the completed requests had one |
| `ResetCases.AskCases` | backend/app/services/password_reset_service.py:206-269 | when a first call is refused (a request of the user issued within the last 60 s) and the columns of the request it adds otherwise |
| `ResetCases.LatestMeaning` | backend/app/services/password_reset_service.py:338-347 | the request looked at is the open one issued last |
| `ResetCases.VerifyCases` | backend/app/services/password_reset_service.py:336-427 | a typed code for the newest open request: which answer when, and what each writes |
| `ResetCases.NothingToVerify` | backend/app/services/password_reset_service.py:349-359 | a user without an open request is told so, and nothing changes |
| `ResetCases.FinishCases` | backend/app/services/password_reset_service.py:452-527 | a completion token of a verified request: which answer when, and what each writes |
| `ResetCases.UnknownToken` | backend/app/services/password_reset_service.py:463-478 | any other token is refused and changes nothing |
| `ShieldService.Inventory.UploadCertificate` | backend/app/services/shield_service.py:315-403 | an upload is inactive, has a new fingerprint, and a SERVER one has its matching key |
| `ShieldService.Inventory.DeleteCertificate` | backend/app/services/shield_service.py:409-419 | an active certificate is never deleted |
| `ShieldService.Inventory.ActivateCertificate` | backend/app/services/shield_service.py:509-534 | activation in the order of its checks; a failed call changes no row, and a certificate without a staged key is always refused unless it is a CA |
| `ShieldService.Inventory.ActivateBundle` | backend/app/services/shield_service.py:556-588 | both certificates switch or neither row does |
| `ShieldModel.SwitchMeaning` | backend/app/services/shield_service.py:529-534 | after a switch exactly that row is active for its type, and the other types are as they were |
| `ShieldModel.RunKeeps` | backend/app/services/shield_service.py:315-588 | in every reachable inventory each type has at most one active certificate |
| `ShieldProtocol.ExactlyOneForever` | backend/app/services/shield_service.py:409-588 | a type has exactly one active certificate from its first activation on, forever, and none before |
| `ShieldProtocol.InventoryIsSound` | backend/app/services/shield_service.py:334-383 | in every reachable inventory fingerprints are unique and exactly the SERVER certificates have a private key |
| `ShieldProtocol.FailureChangesNoRow` | backend/app/services/shield_service.py:526-588 | a refused or failed call changes no row; a bundle puts up both of its certificates |
| `ShieldProtocol.ClientIsNeverActive` | backend/app/services/shield_service.py:518-534 | no run activates a CLIENT certificate: it has no staged key, and the server helper it is sent to demands one |
| `ShieldProtocol.ActiveIsLive` | backend/app/services/shield_service.py:509-588 | while the helper answers in time and leaves nothing in place when it fails, the active CA and SERVER rows are always the certificates in place |
| `ShieldProtocol.ActiveIsLiveIff` | backend/app/services/shield_service.py:437-588 | for any helper: the active row is the certificate in place if and only if the last call that put one in place was answered with success, or named the certificate active anyway |
| `ShieldProtocol.HalfBundleParts` | backend/app/services/shield_service.py:556-588 | a reachable run in which a half-done bundle of another CA leaves the two different |
| `ShieldProtocol.FailedCallParts` | deployment/shield/mtl-cert-apply:95-146 | a reachable run in which a helper that fails for its caller with the certificate in place, by a late answer or a rollback without a backup, leaves them different |
| `ShieldProtocol.ActiveHasOrigin` | backend/app/services/shield_service.py:512-588 | every active certificate was activated by an earlier call at which it had not expired, a SERVER with its private key |
| `ShieldCases.UploadCases` | backend/app/services/shield_service.py:315-403 | which refusal of an upload comes when, and the columns of the row it adds |
| `ShieldCases.DeleteCases` | backend/app/services/shield_service.py:409-419 | only a row that is not active is removed, and the others keep their order |
| `ShieldCases.UnknownId` | backend/app/services/shield_service.py:212-216 | an id that no row has is refused and changes nothing |
| `ShieldCases.SwitchedRow` | backend/app/services/shield_service.py:529-534 | what a switch leaves in each row, column by column |
| `ShieldCases.ActivateCases` | backend/app/services/shield_service.py:509-534 | the answer of an activation and the certificate it puts in place, for each type and outcome of the helper |
| `ShieldCases.BundleCases` | backend/app/services/shield_service.py:556-588 | the answer of a bundle and the certificates it puts in place, for each outcome of the helper |
| `ShieldCases.BundledRow` | backend/app/services/shield_service.py:580-588 | what a bundle leaves in each row, column by column |
| `AccountLock.Directory.ResetUserPassword` | backend/app/services/ldap_user_service.py:468-507 | a forced change sets pwdReset and both locks, an unforced one clears them, as far as the best-effort modifications go through; a refusal changes nothing |
| `AccountLock.Directory.ChangeOwnPassword` | backend/app/services/ldap_user_service.py:526-549 | a change clears both locks and pwdReset and starts a new day count, as far as the modifications go through; complete_reset and the portal end the same way |
| `AccountLock.Directory.Sweep` | backend/app/worker/tasks/password_expiry_tasks.py:134-202 | the loop treats each entry by its own age, writes nothing in a dry run, and its five counters count what it did |
| `AccountLock.SweepCounts` | backend/app/worker/tasks/password_expiry_tasks.py:150-202 | the five counters sum to the total whatever fails; a dry run writes nothing and predicts the counters of a real one |
| `AccountLock.SweepLocksOnlyExpired` | backend/app/worker/tasks/password_expiry_tasks.py:165-187 | an entry is locked if and only if its known age exceeds the maximum and the modification of shadowExpire goes through; nothing younger is touched |
| `AccountLock.SecondSweepIsQuiet` | backend/app/worker/tasks/password_expiry_tasks.py:160-190 | a second sweep the same day locks and baselines nobody and changes nothing |
| `AccountLock.LocksStayConsistent` | backend/app/services/ldap_user_service.py:45-74 | over every run of password operations and sweeps, shadowExpire = 1 exactly with pwdAccountLockedTime, and pwdReset only with both |
| `AccountLock.HalfLockedIff` | backend/app/worker/tasks/password_expiry_tasks.py:181-191 | failing modifications of the sweep break this exactly when one lock attribute alone is set; if that is shadowExpire, no later sweep repairs it |
| `AccountLock.EntryStaysConsistent` | backend/app/services/ldap_user_service.py:45-74 | one operation: a forced change locks, an unforced one and the user's own unlock, and a sweep keeps the attributes together |
| `AccountLock.PartialWriteIff` | backend/app/services/ldap_user_service.py:45-74 | the exact failures inside a password operation after which the lock attributes disagree |
| `AccountLock.ForcedChangeWithoutLock` | backend/app/services/ldap_user_service.py:487-502 | such a failure: pwdReset set, then both locks refused |
| `AccountLock.PasswordLastsMaxAge` | backend/app/worker/tasks/password_expiry_tasks.py:93-112 | a changed password keeps its user unlocked until its age exceeds the maximum, and the first sweep after that locks, if the server stamps pwdChangedTime on that day or never has |
| `LockCases.ResetColumns` | backend/app/services/ldap_user_service.py:487-507 | a password set by an admin, attribute by attribute, for each set of modifications that go through |
| `LockCases.ChangeColumns` | backend/app/services/ldap_user_service.py:526-549 | the user's own change, attribute by attribute |
| `LockCases.SweepCases` | backend/app/worker/tasks/password_expiry_tasks.py:150-202 | one entry in a sweep: which counter it raises and which attributes it is given, by age, lock and dry run |
| `LockCases.EachEntryIsSwept` | backend/app/worker/tasks/password_expiry_tasks.py:134-202 | the sweep treats each entry by itself and does nothing for a maximum age of zero or less |
| `LockCases.CountersMeaning` | backend/app/worker/tasks/password_expiry_tasks.py:150-202 | each of the five counters is the number of entries of its kind |
| `Shell.QuotingRoundTrip` | backend/app/services/provision_service.py:87-89 | the shell reads the single-quoted form of v back as exactly v, for every v without NUL (sections 2.2.1 and 2.2.2 of the POSIX Shell Command Language) |
| `Shell.QuotedReadsBack` | backend/app/services/provision_service.py:87-89 | the same in the middle of a text: reading goes on behind the closing quote |
| `Provision.LoopIsSimultaneous` | backend/app/services/provision_service.py:173-187 | when no value contains a placeholder replaced after its own, the loop equals one simultaneous substitution, on every template with placeholders alone between quotes |
| `Provision.BootstrapAssignsValuesIff` | backend/app/services/provision_service.py:173-217 | in general the script assigns exactly the given values if and only if replacing the later placeholders changes none of them |
| `Provision.RenderFills` | backend/app/services/provision_service.py:185-187 | what the replace loop makes of any template for any values, placeholder by placeholder |
| `Provision.NoPlaceholderIsLeft` | backend/app/services/provision_service.py:185-187 | when no value contains a placeholder, none is left in the script |
| `Provision.LaterPlaceholderIsReplaced` | backend/app/services/provision_service.py:186-187 | for the ten placeholders and their block: a value that is a later placeholder makes the script assign the later variable's value to both |
| `Provision.BootstrapAssigns` | backend/app/services/provision_service.py:173-217 | end to end, for all values without NUL: the shell reads each of the ten variables as its value with the placeholders after its own replaced in it |
| `Provision.BootstrapAssignsValues` | backend/app/services/provision_service.py:173-217 | so each variable gets exactly its value when no value contains a placeholder after its own |
| `Provision.TheTenArePlaceholders` | backend/app/services/provision_service.py:173-184 | the ten placeholders differ and none lies inside another |
| `ProvisionService.ProvisionStore.ConsumeAndRender` | backend/app/services/provision_service.py:146-189 | the checks of the token, then the mark and the replace loop; a failing helper rolls the mark back |
| `ProvisionService.TokenIsUsedOnce` | backend/app/services/provision_service.py:152-162 | a token fetches at most one script, within 30 minutes of its creation |
| `ProvisionService.FetchCases` | backend/app/services/provision_service.py:146-165 | which refusal of a fetch comes when; only the fetch that gets the script marks the token |
| `ProvisionService.NewTokenIsGood` | backend/app/services/provision_service.py:124-162 | a token is good for exactly 30 minutes after its creation, and for its own node |
| `ProvisionService.ScriptAssigns` | backend/app/services/provision_service.py:146-217 | the ten assignments of the fetched script, by name: the node id of the row and the nine values supplied |
| `Provision.PlaceholderOfName` | backend/app/services/provision_service.py:173-217 | each placeholder is its variable's name between double underscores |
## Left out

- Sockets, HTTP, HMAC signatures, LDAP binds, Redis, `openssl`, helper processes, SMTP and SMS: their outcomes are parameters of the steps.
- Cryptography and the TOTP library: a password hash accepts the password it was made from, a digest is injective, the HOTP function, the digit test and the normalisation of typed codes are arbitrary functions, a genuine token is one whose signature and issuer check out.
- Database transactions: each operation commits or is rolled back as a whole, one at a time, except that cluster flushes may lose their final commit and browser events interleave; in the cluster of many nodes the receive of an acknowledged post and the marking of its items are one step (FlushSteps takes the flush of one node apart), and a receive is serialised with other receives.
- Cluster: node status, heartbeat and last_sync_at columns, ties in queued_at, concurrent flushes of one queue, re-registration of a node during a flush, and exceptions inside enqueue (which log_event swallows, `audit_service.py:79-84`); each registered node id is taken to reach that node.
- ExactlyOnce: assumes that no two events logged at one node share server_node, occurred_at and event_code, and that event codes are not empty; without the first, StoredIffKeyWasNew says what is lost.
- Scan: the LDAP search returns at most 1000 entries (`core/ldap.py:220-244`); results are stated over the entries returned, with uids compared exactly and upper-casing of ASCII only. Attributes that no comparison reads (sn, phone, language and the like) are not modelled.
- UserService.UserStore.Update: the DN and other attributes never change and a MODIFY either applies wholly or is refused; the retrieval that builds the answer is not modelled.
- AuthProtocol: the user name is taken as already stripped and lower-cased, and identifies the account; set-up tokens are issued but their redemption and the making of pending secrets are not modelled; role changes, MFA resets and own password changes are one step that replaces the profile; password-change tokens are only an answer.
- AuthProtocol.LockoutRate: a completed login, an admin password reset and the removal of the account count as resets.
- Tokens.SpentStaysSpent: one jti is taken to belong to one genuine token, since uuid4 does not repeat.
- Refresh coordinator: one tab; another tab can change the persisted session only through the events modelled.
- Password reset: each call reads the clock once, so the row's issue time, taken by the database when its transaction starts, is that reading; delivery of the code is not modelled.
- Certificates: the CSR bookkeeping and the staging files, except that a private key is staged exactly for a SERVER upload; a run of the helper ends before the next one starts.
- Account locks: the log samples of the sweep and the metadata columns beside the LDAP attributes.
- Provision: only the ten assignments of the template are read back; the rest of the script, its certificates and registration are not part of this model.
- Shell.ReadWord: reads single quotes, backslashes and plain characters; any other special character outside quotes makes it give up rather than expand.
- End-user sign-in, settings pull, alert rules, dashboards, password-policy checks, Accept-Language parsing and listings: they would only add easy members.
- Bulk import, role creation and the next-gid search: their text does not carry out what it is meant to do.
