# Tunnelfolio: verified model

Tunnelfolio keeps a library of OpenVPN and WireGuard client profiles on one host and connects at
most one of them at a time. This project models the parts of it that are hard to get right and proves
what they promise, for every input, every order of events and every pattern of failures:

* **The transition manager** (`Environment`, `Manager`). Connect, disconnect, remove, startup
  reconciliation and the handler of unexpected exits, over backends, a store and execution copies that
  may fail at any call, while the owned OpenVPN process may exit by itself before any call. At every
  instant of every run at most one tunnel is up; whatever is up is the desired profile of the manifest,
  or a conflict is reported; a finished transition reports the truth; a conflict is left in two ways only.
* **The crash-consistent library** (`Library`, `Records`, `Disk`, `ProfileStore`, `Opening`). The filesystem has a
  visible state and a set of states that a crash may leave, and every system call is one step that may
  fail. In every state the disk is ever in, every manifest that could survive a crash is complete and
  refers only to durable, byte-exact objects. Publish and Remove are atomic under a crash at any step, and
  opening always recovers.
* **Import** (`Text`, `ConfigText`, `Spelling`, `Policies`, `Detection`, `Directives`, `Sections`, `Receipt`,
  `ImportPlan`, `ImportService`). Inspection plans identities; commit derives everything again, checks a MAC
  over an injective encoding, and publishes once or recognises a replay. What the two import policies
  accept, and what the tokens of a line are, is said of the text as a whole, without a scanner, in both
  directions; and no text is accepted by both.
* **Processes and tools** (`Readiness`, `OpenVPNProcess`, `OpenVPNAdapter`, `WireGuard`). The readiness
  scanner does not depend on how its input is cut; process flags are exact in every interleaving; the two
  backends and the store meet the contracts (`Contracts`) that the manager is proved from.

`*` in the code is the environment's choice: an error, a crash, an exit, a random name. `faults` counts
the failures that were injected, so that `faults == old(faults) ==> ...` says what an operation does when
nothing fails. `log` and `trace` record every state of the disk and every backend action, so that
properties of intermediate steps are postconditions. Errors are the sets of kinds that the code tells apart.

Five facts of the code shape the statements:

* `prependUnique` respects its limit exactly for limits of at least 2, or for limit 1 when the list is
  empty or already starts with the value (`Library.PrependedExact`); it is called with 5.
* Connect on a profile whose stored object does not validate sets the lifecycle to failed although another
  tunnel may be up (`internal/manager/manager.go:322-325`); `Manager.FailedWhileUp` is such a run. From any
  other lifecycle, Connect ends in failed with a tunnel up exactly when that check failed while one was up
  (`Manager.Manager.Connect`); outcomes decided after a transition began are truthful.
* Startup reconciliation runs as a goroutine (`cmd/tunnelfolio/main.go:113`) and the lifecycle starts as
  disconnected: the desired-state promise is claimed from the end of startup reconciliation on.
* Several tunnels at once are reported before a missing backend is (`internal/manager/manager.go:579-584`):
  such a conflict, too, lists all that is up.
* A process that was told to stop without proof that it did is not reported when it exits later. The
  desired-state promise survives this because such a stop always ends in a reported conflict, and what is
  up outside a conflict was never told to stop.

## Model

| member | source | states |
|---|---|---|
| Manager.Run | cmd/tunnelfolio/main.go:113 | Startup reconciliation and then any sequence of requests, exit reports, imports, edits and process exits, under any failures: no backend action of the run had two tunnels up at any instant, and after it the desired-state promise holds or a conflict is reported. |
| Manager.Happen | internal/manager/manager.go:306-486 | One event keeps the state valid, the desired-state promise and at most one tunnel; nothing is asked of a backend after a start with unproved cleanup, and nothing is started after a failed stop; a conflict is left only by a disconnection that proved every tunnel down, every copy removed and the desired state cleared, or by a handled exit report that saw nothing up; in a conflict Connect and Remove perform no backend and no store action; a delivered report leaves the queue. |
| Manager.DeliverReport | internal/manager/manager.go:836-876 | Any queued exit report, taken in any order, keeps the promise while the report itself counts as not yet handled, and leaves a conflict only with nothing up. |
| Manager.StillQueued | internal/manager/manager.go:836-838 | Taking one report out of the queue and handling it next loses no report of the desired profile. |
| Manager.ForeseenAfterObserving | internal/manager/manager.go:336-352 | From the promise before an observation: the single tunnel seen is the desired profile, and when nothing is seen a recorded connection has its exit report queued. |
| Manager.Manager.Connect | internal/manager/manager.go:306-398 | Keeps the promise; success means active with the target recorded and nothing else up; once a transition began, what was up before is the observed previous tunnel or has its exit report queued, and the result is active with the only tunnel left up, failed with nothing up and no previous tunnel, or a conflict; after a start with unproved cleanup no backend is asked for anything more, and after a failed stop nothing is started; from any lifecycle but failed, it ends in failed with a tunnel up exactly when the stored object did not validate while one was up; a busy gate and a conflict change nothing; at most one tunnel at every action; with no failure a connectable profile connects; an unknown profile, and one whose backend does not answer, is refused before anything is observed, stopped or written; a transition that was taken back leaves the record as it was, or names what was up before, with a time only if something was. |
| Manager.Manager.Admit | internal/manager/manager.go:317-335 | The profile exists, its object validates and its backend answers, or the request is refused as not found, unreadable or unavailable, with the record untouched; a backend that cannot answer always refuses; the lifecycle becomes failed exactly when the object did not validate. |
| Manager.FailedWhileUp | internal/manager/manager.go:322-325 | A concrete library and network in which Connect ends in failed while another tunnel stays up: the stored object of its profile does not validate. |
| Manager.Manager.ObserveAndConnect | internal/manager/manager.go:336-398 | The same from the observation on: a conflict, a renewed record of the tunnel already up, or a transition from what was observed. |
| Manager.Manager.Transition | internal/manager/manager.go:351-398 | The transition settles truthfully and never in starting or switching; active with another profile than the target means that the previous one was restored; nothing is started after a failed stop or after an unproved cleanup of the target. |
| Manager.Manager.StopPrevious | internal/manager/manager.go:362-374 | Nothing is up before the target is started, or a conflict is reported. |
| Manager.Manager.StartTarget | internal/manager/manager.go:375-397 | The three ends of a start of the target, recorded, compensated or given up, are truthful and keep the promise; a conflict with a working store leaves no connection time, and the recorded profile when the target's cleanup was unproved, otherwise the previous one; with one failure and proved cleanup there is no conflict. |
| Manager.Manager.GiveUp | internal/manager/manager.go:376-380 | A start with unproved cleanup ends in a conflict with the recorded profile and no connection time; one failure of the store is repaired. |
| Manager.Manager.Restore | internal/manager/manager.go:381-391 | After a failed start that left nothing up, the previous tunnel is up again and the record is untouched, or nothing is up and there was none, or a conflict is reported, in which a working store names the previous profile with no connection time. |
| Manager.Manager.RecordTarget | internal/manager/manager.go:393-397 | The started target is recorded as desired with a time unless the store fails, and then compensated: the previous tunnel is recorded again, or nothing is desired; a single failure never ends in a conflict. |
| Manager.Manager.RenewActive | internal/manager/manager.go:341-350 | The tunnel already up is recorded, or a conflict is reported; two failures of the store are not enough for one. |
| Manager.Manager.RecoverPersistenceFailure | internal/manager/manager.go:678-713 | A target that is up but unrecorded ends as the previous tunnel restored and desired with a time, as nothing up and nothing desired, or as a conflict, and keeps the promise; when every stop was proved and the store works again, such a conflict names the previous profile without a time; the original cause is always reported. |
| Manager.Manager.RollBack | internal/manager/manager.go:679-687 | Nothing is started unless the target was proved down and its copies removed; both errors nil means exactly the previous tunnel is up; with a working store the rollback of the target fails only for a stop that its backend did not prove. |
| Manager.Manager.RecordActual | internal/manager/manager.go:690-701 | The record gets a connection time exactly when a tunnel is up. |
| Manager.Manager.Disconnect | internal/manager/manager.go:400-454 | Nil proves nothing up, no execution copy outstanding, no desired profile and no connection time; every other outcome with the gate is a reported conflict; it never starts anything; a stop that failed is reported as a failed transition. |
| Manager.Manager.ObserveToDisconnect | internal/manager/manager.go:408-424 | Nil means that what it lists is all that is up; backends are shut down only out of a conflict, and there a single failed observation is recovered from, whatever became of the shutdown. |
| Manager.Manager.ShutdownAndObserve | internal/manager/manager.go:413-419 | Out of a conflict that could not be observed: after the shutdown, what is listed is all that is up; it starts nothing, and a failed shutdown alone is no error. |
| Manager.Manager.StopAll | internal/manager/manager.go:425-436 | Nil means that every observed tunnel, and so everything, is down. |
| Manager.Manager.StopEverything | internal/manager/manager.go:408-451 | Nil proves tunnels, copies and recorded connection gone; otherwise nothing was started. |
| Manager.Manager.ClearConnection | internal/manager/manager.go:442-452 | Nil means that no connection is recorded; a single failure of the store is repaired. |
| Manager.Manager.Remove | internal/manager/manager.go:456-486 | Success removes exactly this profile from the record and it was not up; a profile that is up is refused and the record unchanged; a conflict changes nothing; the promise is kept; an unknown profile is reported as such before anything is observed. |
| Manager.Manager.RemoveInactive | internal/manager/manager.go:472-484 | With the gate held, a profile is removed only after its protocol was observed without it. |
| Manager.Manager.ReconcileStartup | internal/manager/manager.go:488-547 | From any manifest and any tunnels: the promise holds or a conflict is reported, and the lifecycle is active with the desired profile, failed or disconnected with nothing up and no connection time, or a conflict; the desired profile stays; in manual mode that nobody changes meanwhile it only observes, whatever connection time was left. |
| Manager.Manager.Reconcile | internal/manager/manager.go:494-547 | The same with the gate held: startup in manual mode that nobody changes meanwhile, or without a desired profile, only observes, even after a reboot while connected; without failures, when only the desired profile may be up, the result is active or disconnected. |
| Manager.Manager.Adopt | internal/manager/manager.go:498-505 | A tunnel observed at startup is adopted exactly when it is the desired profile; any other is a conflict. |
| Manager.Manager.StartIdle | internal/manager/manager.go:506-546 | With nothing up, a stale connection time is cleared; nothing is started without a desired profile, nor in manual mode that nobody changes meanwhile, whatever connection time was left, and without failures the lifecycle is then disconnected; the desired profile stays and the promise holds afterwards; one failure with proved cleanup never ends in a conflict. |
| Manager.Manager.RestoreDesired | internal/manager/manager.go:517-546 | Only in restore mode: the desired profile is up and recorded, or nothing is up, or a conflict is reported; it stays the desired one; one failure with proved cleanup never ends in a conflict. |
| Manager.Manager.StartDesired | internal/manager/manager.go:526-546 | The desired profile, known to be readable, is started and recorded, or nothing is up with no connection time, or a conflict is reported. |
| Manager.Manager.RecordRestored | internal/manager/manager.go:535-546 | A restored tunnel is recorded with a time, or stopped again; one failure never ends in a conflict; the promise holds either way. |
| Manager.Manager.Unrestore | internal/manager/manager.go:536-543 | The restored tunnel that could not be recorded is proved down with no connection time, or a conflict is reported. |
| Manager.Manager.HandleUnexpectedExit | internal/manager/manager.go:836-876 | For a report with any fields: unproved cleanup or an empty path ends in a conflict; a report for another profile than the desired one changes no record; while the desired profile is still observed, none of its copies but the reported one is removed; a conflict is left only with nothing up and no connection time; the desired profile stays. |
| Manager.Manager.HandleDesiredExit | internal/manager/manager.go:851-875 | The observation decides: still up keeps lifecycle and copies, down clears the connection time and the copies or leaves a queued report, anything else is a conflict. |
| Manager.Manager.RecordExit | internal/manager/manager.go:865-875 | With nothing up, the profile's copies are gone and no connection time is recorded, or a conflict is reported; a working store suffices. |
| Manager.Manager.Observe | internal/manager/manager.go:565-586 | Nil lists all that is up, at most one; a conflict of several tunnels lists all that is up too, and is reported before a missing backend is; with at most one tunnel up no such conflict is reported; without failures the error is exactly that conflict, a missing backend that some profile needs, or none. |
| Manager.Manager.ObserveProtocol | internal/manager/manager.go:588-603 | A protocol without profiles needs no backend, and one with profiles whose backend is not there is unavailable; an answer lists exactly what is up of the protocol, and without failures there is one. |
| Manager.Manager.List | internal/manager/manager.go:565-579 | One protocol of an observation: exactly its tunnels, or a missing backend that some profile needs, or an error. |
| Manager.Manager.Start | internal/manager/manager.go:633-654 | Nil means up, with its execution copy in the table; an error without unproved cleanup leaves no new tunnel; every copy it prepared is tracked or proved removed; with a working store, unproved cleanup is the backend's word; an error with proved cleanup leaves no copy behind, and a missing backend is unavailable. |
| Manager.Manager.Stop | internal/manager/manager.go:656-676 | Nil means down with no copy of the profile left in the table; a stop brings nothing up; with a working store it fails only for a stop that its backend did not prove; a missing backend is unavailable. |
| Manager.Manager.SettleCopy | internal/manager/manager.go:644-653 | The copy of an attempted start is kept exactly while its tunnel may run; one that could not be removed again is tracked, and adds unproved cleanup to the error. |
| Manager.Manager.CleanupOthers | internal/manager/manager.go:672-675 | After a proved stop the other copies of the profile are removed or put back. |
| Manager.Manager.ReconcileConnection | internal/manager/manager.go:737-749 | Nil records exactly this connection; for a known profile and a valid time a single failure is repaired; profiles never change, and the startup mode only if someone else changed it. |
| Manager.Manager.AddExecution | internal/manager/manager.go:751-755 | A pending copy put back in the table is tracked exactly once under its own profile, and every other entry is as before. |
| Manager.Manager.TakeExecutions | internal/manager/manager.go:757-776 | Takes exactly the profile's copies except those at the given path, each once, and leaves the others; no empty entry remains. |
| Manager.Manager.CleanupExecutions | internal/manager/manager.go:778-788 | Every outstanding copy stays tracked exactly once; nil leaves only the excepted copy; copies of other profiles are untouched. |
| Manager.Manager.CleanTaken | internal/manager/manager.go:780-787 | Of the copies taken out, each is proved removed or back in the table, under partial failures. |
| Manager.Manager.CleanOne | internal/manager/manager.go:782-786 | One pending copy is removed, or is in the table again. |
| Manager.Manager.CleanupExecutionPath | internal/manager/manager.go:790-820 | Removes the copy of this profile at this path and no other; an empty path is an error; a path not in the table is not. |
| Manager.Manager.TakeAt | internal/manager/manager.go:794-811 | Takes the copy at the path out of the entry, if it is there, and keeps the rest. |
| Manager.Manager.CleanAt | internal/manager/manager.go:812-819 | A copy whose removal fails is back in the table, and no other copy moved. |
| Manager.Manager.CleanupAllExecutions | internal/manager/manager.go:822-834 | Nil leaves the table empty and no copy outstanding. |
| Manager.TrackTaken | internal/manager/manager.go:757-776 | Taking copies out of the table turns exactly them into pending ones and loses none. |
| Manager.TrackAdded | internal/manager/manager.go:751-755 | A pending copy put back is tracked exactly once, under its own profile. |
| Library.ValidateManifest | internal/profiles/model.go:136-181 | Accepts exactly the manifests with the known version, at most 100 valid profiles that share no ID, identifier or content, favorites and recents without duplicates or unknown IDs and within their limits, a known desired profile and no negative time. |
| Library.ValidateProfiles | internal/profiles/model.go:150-168 | The loop with its three maps of what was seen accepts exactly the lists whose profiles are valid and pairwise apart. |
| Library.ValidateList | internal/profiles/model.go:305-320 | Accepts exactly the duplicate-free lists of known IDs within the limit. |
| Library.Lookup | internal/profiles/model.go:127-134 | Finds a profile with the ID exactly when there is one. |
| Library.PrependUnique | internal/profiles/store.go:874-885 | The loop computes the value first, then the others in order, cut at the limit. |
| Library.PrependedExact | internal/profiles/store.go:874-885 | Exactly when the limit is respected; the value comes first, nothing foreign is added, and a duplicate-free list stays so. |
| Library.PrependedMoves | internal/profiles/store.go:874-885 | For limits of at least 2, of a duplicate-free list: the value comes first, then the others in their old order, and the last is dropped only where the limit is exceeded. |
| Library.RemoveId | internal/profiles/store.go:897-905 | The loop computes the list without the ID; what that list is, `Library.WithoutIdExact` says. |
| Library.WithoutIdExact | internal/profiles/store.go:897-905 | The list without an ID has exactly the other IDs and stays duplicate-free. |
| Library.WithoutIdDropped | internal/profiles/store.go:897-905 | Of a duplicate-free list, what is left is the list cut out around the ID, in its order. |
| Library.RemoveProfile | internal/profiles/store.go:887-895 | The loop computes the list without the profile. |
| Library.WithoutProfileExact | internal/profiles/store.go:887-895 | The list without a profile has exactly the other profiles. |
| Library.WithoutProfileDropped | internal/profiles/store.go:887-895 | Of profiles with different IDs, what is left is the list cut out around the profile, in its order. |
| Library.ConnectionValid | internal/profiles/store.go:278-287 | A connection edit is valid exactly for no profile or a known one and a time that is not negative: adding to the recents never invalidates a manifest. |
| Library.ConnectionExact | internal/profiles/store.go:278-287 | Field by field: the profile, the time and the revision change, the recents move the profile to the front only where asked, and everything else stays. |
| Library.RemovedValid | internal/profiles/store.go:336-347 | Removing a profile leaves a valid manifest valid, with exactly the other IDs. |
| Library.RemovedExact | internal/profiles/store.go:336-347 | Field by field: the profile is gone, the others and both lists keep their order without it, a connection is cleared exactly when it was to this profile, and everything else stays. |
| Library.MetadataValid | internal/profiles/store.go:289-324 | A metadata edit is valid exactly when the metadata is, and changes no identity. |
| Library.MetadataExact | internal/profiles/store.go:289-324 | Field by field: each text of the profile that the patch mentions is the one given, clearing wins over a value, and every other text, field and profile is as before. |
| Library.PublicationValid | internal/profiles/store.go:407-412 | A publication is valid exactly when the joined list of profiles is valid and fits. |
| Records.ValidRecord | internal/profiles/model.go:136-181 | A valid manifest is, for the manager, a record that it accepts. |
| Records.RemovalRecord | internal/profiles/store.go:336-347 | What a removal does to the manifest is what the manager takes it for. |
| Records.ConnectionRecord | internal/profiles/store.go:278-287 | So is a connection: the desired profile and the time change, and nothing else that the manager reads. |
| Records.MetadataRecord | internal/profiles/store.go:289-324 | An edit of metadata changes nothing that the manager reads. |
| Records.PublicationRecord | internal/profiles/store.go:359-565 | A publication adds its profiles for the manager, and changes nothing else that it reads. |
| Disk.FileSystem.WriteJsonAtomic | internal/securefs/securefs.go:176-240 | Not published leaves the manifest file; published makes the new one visible; durable makes it the only one a crash can leave; at every step only the old or the new can survive; nothing else on the disk changes but temporary files; it is durable exactly when nothing fails, and one failure leaves no temporary file. |
| Disk.FileSystem.PrepareTemp | internal/securefs/securefs.go:187-223 | The temporary file is complete and synced before anything is renamed, and no step touches the manifest; one failure leaves nothing behind. |
| Disk.FileSystem.WriteExclusive | internal/securefs/securefs.go:251-288 | Success leaves the object's file with synced contents; a failure touches nothing but that staged object. |
| Disk.FileSystem.RemoveTransaction | internal/securefs/securefs.go:347-392 | Deletes one transaction, or on failure leaves some part of it; nothing else changes. |
| Disk.FileSystem.Crash | internal/securefs/securefs.go:422-434 | A crash at any of the states so far, which cuts off the steps after it and leaves every name in a state it may survive in, keeps the library consistent and every exact object exact. |
| Disk.PutKeeps | internal/securefs/securefs.go:422-430 | A rename to a free name, or away, keeps every object at another name durable and exact, and a free name is never that of an exact object. |
| Disk.SettleKeeps | internal/securefs/securefs.go:432-434 | A directory sync makes exactly the visible state of its names durable and disturbs no exact object. |
| Disk.CrashKeepsConsistent | internal/profiles/store.go:104-144 | After a crash of a consistent disk: a complete manifest is found, and its objects are still durable and exact. |
| ProfileStore.CheckObject | internal/profiles/store.go:381-398 | Accepts exactly the objects within the size limit, with a valid profile, its fingerprint and the identity its policy finds. |
| ProfileStore.Gather | internal/profiles/store.go:374-408 | Nil gives the base and all objects, each admissible and none clashing with an earlier profile; otherwise an object is not admissible, or its ID or content occurs before it; such a clash among admissible objects is reported as one. |
| ProfileStore.Admit | internal/profiles/store.go:371-412 | Accepts exactly the batches that fit, are admissible one by one and make a valid manifest; capacity is reported exactly, and alone, when they do not fit; a clash among admissible objects that fit is reported as one. |
| ProfileStore.Stage | internal/profiles/store.go:449-484 | A staged object has synced contents and synced entries; a failure touches only its staging; the steps are the directory, the file, its sync and the directory's sync, each on what the step before left. |
| ProfileStore.StageAll | internal/profiles/store.go:449-484 | All objects of the batch are staged completely, and no manifest or library object changed. |
| ProfileStore.Place | internal/profiles/store.go:505-514 | After success the profile's visible object is byte-exact, whether it was renamed there or was there before and validated; it fails only for a fault or another object in its place. |
| ProfileStore.InstallOne | internal/profiles/store.go:494-528 | After success the profile's object is durable and byte-exact, and every object that was exact stays so. |
| ProfileStore.InstallAll | internal/profiles/store.go:494-528 | After success every object of the batch is durable and byte-exact; it fails only for a fault or a foreign object in a place. |
| ProfileStore.Transfer | internal/profiles/store.go:413-528 | The transaction before its commit: at each of its steps only the old manifest can survive a crash, and no exact object is disturbed. |
| ProfileStore.InstallKeeps | internal/profiles/store.go:505-508 | A rename without replacement of a completely staged object keeps the disk consistent and makes the object visible. |
| ProfileStore.SyncKeeps | internal/profiles/store.go:515-523 | The sync of a protocol directory turns every visible matching object of it into a durable one. |
| ProfileStore.DiscardKeeps | internal/profiles/store.go:815-830 | Moving an object away keeps the disk consistent if no manifest that could survive a crash names it. |
| ProfileStore.MoveOut | internal/profiles/store.go:815-830 | Only an object that no surviving manifest can name is moved to the garbage; after success no crash brings it back. |
| ProfileStore.Dispose | internal/profiles/store.go:815-841 | Moved out durably before it is deleted; nothing else visible changes. |
| ProfileStore.EditKeepsExact | internal/profiles/store.go:289-324 | An edit of metadata refers to the same durable objects. |
| ProfileStore.ValidateObject | internal/profiles/store.go:667-696 | Accepts only an object that is byte-exact under the recorded identity, and without a fault accepts every such object. |
| ProfileStore.Store.PublishManifest | internal/profiles/store.go:600-619 | Nil: the candidate is in memory and durable; ambiguous: in memory and visible with durability unknown; any other error changed neither; at each step only the old or the new manifest can survive a crash. |
| ProfileStore.Store.RepairDurability | internal/profiles/store.go:621-651 | Nil means that durability is known; the visible manifest never changes; an error is always ambiguous and means durability was unknown before. |
| ProfileStore.Store.ValidateReferenced | internal/profiles/store.go:653-660 | Whatever is stored: nil means that every object matches its record, and without faults objects that match are accepted. |
| ProfileStore.Store.Mutate | internal/profiles/store.go:573-591 | The manager's contract of a store mutation; without faults it succeeds exactly for a valid candidate. |
| ProfileStore.Store.SetConnection | internal/profiles/store.go:278-287 | Publishes this connection or changes nothing, unless ambiguous; what changes is said field by field: with a profile to be added, the recents begin with it, then come the others in their old order, and only a sixth is dropped; otherwise they stay, as does everything else; without faults it is refused exactly for an unknown profile or a negative time. |
| ProfileStore.ConnectionCandidate | internal/profiles/store.go:278-287 | The loop and its early stop compute the change that SetConnection publishes, which is valid exactly for no profile or a known one and a time that is not negative; what the change is, `Library.ConnectionExact` says. |
| ProfileStore.Store.SetPreferences | internal/profiles/store.go:269-276 | Publishes exactly these preferences or changes nothing, unless ambiguous; without faults it is refused exactly for invalid lists. |
| ProfileStore.Store.UpdateMetadata | internal/profiles/store.go:289-324 | Of the one named profile, each text that the patch mentions becomes the one given, the empty one when it is cleared, and nothing else of the manifest changes but its revision; an empty patch is refused and an unknown ID changes nothing; without faults it is refused exactly for invalid metadata. |
| ProfileStore.Store.Resolve | internal/profiles/store.go:165-176 | Nil returns the profile with this ID whose stored object is byte-exact; without faults it fails exactly for an unknown ID; an unknown ID, and nothing else, is not found. |
| ProfileStore.Store.CommitBatch | internal/profiles/store.go:413-565 | The objects of the batch are durable before a manifest names them, at every step; the whole batch is published or none of it; unless cleanup is pending its transaction is gone. |
| ProfileStore.Store.CleanTransaction | internal/profiles/store.go:535-564 | The transaction is gone, or pending cleanup is reported; neither manifest nor objects are touched. |
| ProfileStore.Store.Publish | internal/profiles/store.go:359-565 | Nil means that the expected revision was current and the manifest is the old one with the whole batch; an unambiguous error changed nothing; at every step only these two can survive a crash; unless cleanup is pending no transaction remains; without faults and foreign objects it succeeds exactly for acceptable batches, and says which of a stale revision and a full library was the reason otherwise; after an error, cleanup is pending exactly when the new manifest is visible. |
| ProfileStore.Store.PublishNew | internal/profiles/store.go:371-565 | A batch that is not empty, against the manifest at hand: all of it or nothing, and at every step only these two can survive a crash. |
| ProfileStore.RemovalCandidate | internal/profiles/store.go:336-344 | The three loops compute the manifest that `Library.RemovedValid` is about. |
| ProfileStore.Store.Forget | internal/profiles/store.go:326-350 | The decision of Remove: the manifest without the profile, with everything else in its order, is published, or nothing changes, unless ambiguous. |
| ProfileStore.Store.Remove | internal/profiles/store.go:326-357 | The manifest without the profile is durable before its object is touched; unless cleanup is pending, no crash brings the object back; without faults, and with an empty garbage directory, cleanup is not pending; what remains keeps its order. |
| ProfileStore.Store.GarbageCollect | internal/profiles/store.go:804-841 | Collects the object of a profile that the durable manifest does not name, and touches no other; it succeeds exactly when nothing fails, the object is there and its garbage name is free. |
| ProfileStore.Store.PrepareExecution | internal/profiles/store.go:178-259 | Nil gives a byte-exact copy of the validated object under a name not in use; no other copy and nothing of the library changes. |
| ProfileStore.CopyExecution | internal/profiles/store.go:196-232 | Success leaves a complete copy; a failure touches nothing but that name. |
| ProfileStore.Store.CleanupExecution | internal/profiles/store.go:235-257 | Nil means that the copy is gone; other copies are untouched. |
| Opening.Run | internal/profiles/store.go:62-841 | Every run of openings, operations, removals of execution copies, faults and crashes from an empty disk, where a crash may cut the last call off at any of its steps: in every state of the disk, every manifest that could survive a crash refers only to durable and byte-exact objects, and while a store is open its manifest is the visible file. |
| Opening.CrashBack | internal/profiles/store.go:359-565 | A crash that cuts the last call off leaves what may survive the state in which it happened. |
| Opening.Serve | internal/profiles/store.go:155-651 | Every operation of an open store keeps the memory equal to the visible file, durable unless flagged unknown. |
| Opening.PublishCrashing | internal/profiles/store.go:359-565 | A crash at any step of Publish leaves a consistent library that is exactly the old one or the new one with the whole batch. |
| Opening.RemoveCrashing | internal/profiles/store.go:326-357 | A crash at any step of Remove leaves a consistent library that is exactly the old one or the one without the profile. |
| Opening.Recover | internal/profiles/store.go:62-146 | After any such crash, opening without a fault succeeds: the library is the manifest found, every object byte-exact, the special directories empty, and the protocol directories hold exactly the referenced profiles. |
| Opening.CrashAnywhere | internal/profiles/store.go:359-565 | A crash at any step of a stretch of the log leaves a consistent disk with one of the manifests that the stretch allows. |
| Opening.AtomicWithin | internal/profiles/store.go:600-619 | Where only two manifests can survive, a crash at any state leaves a consistent library with exactly one of them. |
| Opening.Open | internal/profiles/store.go:62-146 | Fails only for a fault; makes the manifest durable before it deletes what it does not name, also when it fails half-way; success leaves a clean library. |
| Opening.LoadManifest | internal/profiles/store.go:104-138 | The manifest found, or the initial one, is durable on success, and no library object is touched. |
| Opening.CleanupRemnants | internal/profiles/store.go:698-752 | Success leaves exactly the referenced objects and empty special directories; a failure has deleted nothing that is referenced. |
| Opening.SweepTransactions | internal/profiles/store.go:699-724 | Empties the transactions directory and touches nothing else. |
| Opening.SweepGarbage | internal/profiles/store.go:699-724 | Empties the garbage directory and touches nothing else. |
| Opening.SweepExecutions | internal/profiles/store.go:699-724 | Empties the executions directory and touches nothing else. |
| Opening.QuarantineAll | internal/profiles/store.go:725-751 | Of one protocol directory exactly the referenced objects remain; the other directory and the manifest are untouched. |
| Opening.Quarantine | internal/profiles/store.go:754-802 | Every unreferenced object that a crash can leave is recognised, so it is refused only for a fault, and it is gone after success. |
| Opening.ExactlyReferenced | internal/profiles/store.go:725-751 | After both sweeps an object is present exactly when the manifest names it. |
| Receipt.CanonicalInjective | internal/profiles/import.go:452-465 | The canonical input determines revision, expiry and every bound field of every record, for record lists of any length. |
| Receipt.CanonicalReceiptInput | internal/profiles/import.go:452-465 | The buffer that the loops fill is the encoding proved injective. |
| Receipt.WriteStrings | internal/profiles/import.go:467-470 | Each field is written with its length before it. |
| Receipt.Uint64Separates | internal/profiles/import.go:472-476 | Eight bytes tell apart all unsigned 64-bit values, and all signed ones in two's complement. |
| Receipt.NumberOfBigEndian | internal/profiles/import.go:472-476 | Reading back a number written in big-endian bytes that are wide enough returns it. |
| Receipt.WrittenInjective | internal/profiles/import.go:452-470 | Lists of as many fields, whatever follows them, can be told apart from their bytes. |
| Receipt.ListedInjective | internal/profiles/import.go:455-463 | Lists of as many records can be told apart from their bytes. |
| Receipt.RoundTrip64 | internal/profiles/import.go:422-450 | Unpadded base64url decoding undoes encoding for data of any length. |
| Receipt.OneAcceptedText | internal/profiles/import.go:437-450 | A receipt text is accepted exactly when it is the canonical text of its envelope: there is no second text, line breaks and spare bits included. |
| Receipt.Unsealed | internal/profiles/import.go:422-450 | Signing and decoding return the same expiry and MAC, exactly for expiries from the start of Unix time to the end of year 9999. |
| ConfigText.ScannersAgree | internal/profiles/openvpn_policy.go:198-294 | For every line: it continues exactly when tokenizing gives a dangling escape, is unterminated exactly when tokenizing is, and otherwise the returned content has the tokens of the whole line; a comment never continues a line. |
| ConfigText.ScanContinuation | internal/profiles/openvpn_policy.go:198-243 | The two passes, over quotes and over trailing backslashes, decide what the single quoting state says. |
| ConfigText.PendingEscape | internal/profiles/openvpn_policy.go:223-238 | Why the trailing backslash count agrees with the quoting pass: before a comment no escape is pending, and a pending one is the last character. |
| ConfigText.TokenizeLine | internal/profiles/openvpn_policy.go:245-294 | The loop with its early stop at a comment computes the tokens that the agreement is about. |
| Spelling.TokensExact | internal/profiles/openvpn_policy.go:245-294 | The tokens of a line, with no scanner in the statement: the line is words, each written bare, with backslashes, in single or double quotes or in several of these ways joined, and perhaps a comment; the tokens are exactly these words, and an escape dangles or a quote is open exactly when the writing ends in one. |
| Spelling.WritingTokens | internal/profiles/openvpn_policy.go:245-294 | Whatever way a line can be written in, its tokens are the words of that writing, and its comment begins where that writing ends. |
| Spelling.SomeWriting | internal/profiles/openvpn_policy.go:245-294 | Every line is written in some such way. |
| ConfigText.ScanTunnelContinuation | internal/tunnel/openvpn_config.go:156-204 | The second copy refuses exactly the control characters of the content it scans and otherwise decides as the import policy does. |
| Policies.ValidateOpenVPNImport | internal/profiles/openvpn_policy.go:58-142 | The loop over positions of the text accepts exactly what the reader of physical lines accepts; what that is, `Directives.OpenVPNExact` says of the text as a whole. |
| Policies.ReadFirst | internal/profiles/openvpn_policy.go:69-73 | Reading a text is reading its first line, without its line end, and then the rest. |
| Directives.OpenVPNExact | internal/profiles/openvpn_policy.go:58-174 | The accepted texts, with no reader in the statement: the lines are clean and fall apart into inline blocks of known and different names, closed and small enough, and directives of one line or several continued ones; every directive has tokens, its name is not denied and either is an inline name with [inline] alone or stands in the table with its number of arguments; one directive asks for client mode and one names a remote; and no other text is accepted. |
| Directives.Readable | internal/profiles/openvpn_policy.go:58-142 | What the reader has accepted so far can be read in this way, and it remembers what that reading says. |
| Directives.Readings | internal/profiles/openvpn_policy.go:58-142 | Whatever lines can be read in this way the reader accepts, and it remembers what that reading says. |
| Directives.WayReads | internal/profiles/openvpn_policy.go:80-124 | A reading of one more line opens, fills or closes a block, or continues or ends a directive, exactly when the line fits. |
| Directives.WayTaken | internal/profiles/openvpn_policy.go:80-124 | What the reader does not refuse fits in one of these five ways. |
| Directives.WayStep | internal/profiles/openvpn_policy.go:80-124 | On a line that fits, the reader goes on as the reading does. |
| Directives.DirectiveExact | internal/profiles/openvpn_policy.go:144-174 | A directive is accepted exactly when its tokens are permitted, and returned under the name that they give it. |
| Directives.DelimiterExact | internal/profiles/openvpn_policy.go:185-196 | Tells apart exactly the lines that open a block, those that close one and all others. |
| Directives.ContinuesExact | internal/profiles/openvpn_policy.go:198-243 | A line continues exactly when its tokens end in a dangling escape, and gives its text less that escape or its comment. |
| Directives.PhysicalExact | internal/profiles/openvpn_policy.go:69-73 | The physical lines are what stands between the line feeds, each less one carriage return; after the last line feed nothing is no line. |
| Policies.ValidateWireGuardImport | internal/profiles/wireguard_policy.go:26-62 | Accepts exactly the texts whose sections are one valid interface and then one to 32 valid peers, and returns the identity of the private key; of the text as a whole, `Sections.WireGuardExact` says it. |
| Policies.ParseSections | internal/profiles/wireguard_policy.go:64-126 | The loop over split lines computes the line-by-line parse. |
| Sections.WireGuardExact | internal/profiles/wireguard_policy.go:26-126 | The accepted texts and their identity, with no parser in the statement: every line is blank, a header or an assignment, the sections are what is assigned under each header, lawful and valid, and the identity is that of the first section's private key; and no other text is accepted. |
| Sections.SectionsExact | internal/profiles/wireguard_policy.go:64-126 | Lines parse exactly when they can be laid out lawfully, only the first section an interface, every key of its section's kind, and only addresses and servers repeated; the sections hold the values of each key in their order. |
| Sections.WithReads | internal/profiles/wireguard_policy.go:66-124 | One more line can be laid out exactly when it is clean, blank, a header or an assignment, and fits what stands before. |
| Sections.MarkTaken | internal/profiles/wireguard_policy.go:66-124 | What the parser does not refuse is such a line. |
| Sections.WithStep | internal/profiles/wireguard_policy.go:79-123 | On such a line the parser goes on as the layout does. |
| Sections.SectionOfSnoc | internal/profiles/wireguard_policy.go:123-123 | One more assignment adds its value at the end of its key's values and changes no other key. |
| Sections.RawExact | internal/profiles/wireguard_policy.go:65-65 | The lines are what stands between the line feeds, each but the last less one carriage return. |
| Sections.DecimalExact | internal/profiles/wireguard_policy.go:268-274 | The numbers accepted are those written in decimal, perhaps after zeros, and in no other way. |
| Policies.SplitList | internal/profiles/wireguard_policy.go:241-251 | The items are exactly the parts between commas that are not blank, each trimmed, in the order of their positions. |
| Policies.SplitExact | internal/profiles/wireguard_policy.go:242-242 | The parts are the text cut at every separator and nowhere else. |
| Policies.CheckItems | internal/profiles/wireguard_policy.go:228-251 | Whether every non-blank part of a list passes a test, and whether there is one. |
| Policies.CheckPrefixes | internal/profiles/wireguard_policy.go:228-239 | A prefix list has a non-blank part and only prefixes. |
| Policies.CheckInterface | internal/profiles/wireguard_policy.go:136-171 | Accepts exactly the interface sections with one private key, addresses that are prefix lists, DNS servers that are addresses, and port, MTU and table in range. |
| Policies.CheckPeer | internal/profiles/wireguard_policy.go:173-199 | Accepts exactly the peer sections with one public key, endpoint and prefix list, and an optional shared key and keepalive in range. |
| Policies.PolicyRulesSane | internal/profiles/openvpn_policy.go:20-56 | Every directive and block of the policy's tables begins with a lower-case letter. |
| Detection.PoliciesDisjoint | internal/profiles/openvpn_policy.go:58-174 | No text is accepted by both import policies. |
| Detection.LinesAgree | internal/profiles/wireguard_policy.go:64-77 | Where every line is clean, both policies see the same lines but for an empty last one, whatever the line ends. |
| Detection.TrimExact | internal/profiles/wireguard_policy.go:79-106 | Trimming cuts off the spaces at both ends of a text and nothing else. |
| Detection.FirstHeader | internal/profiles/wireguard_policy.go:78-100 | Text that parses into sections has only blank or comment lines before its first header. |
| Detection.HeaderDooms | internal/profiles/openvpn_policy.go:69-142 | The OpenVPN reader refuses at that header or before, or holds a pending directive that it can never complete. |
| Detection.DoomedDirective | internal/profiles/openvpn_policy.go:144-174 | A directive that begins with a bracket or with white space the tokenizer keeps is in no table. |
| Detection.QuietOrDoomed | internal/profiles/openvpn_policy.go:198-243 | A line that WireGuard takes for blank, comment or header is blank or a comment to the tokenizer, or begins a doomed directive. |
| ImportPlan.DetectionExact | internal/profiles/import.go:518-553 | Both directions, for every file: an .ovpn file is OpenVPN's and cannot be chosen to be anything else; a .conf file is what the client chose, or what the one policy that accepts it says, or, if none does, the protocol that it alone has signs of; nothing else is detected. |
| ImportPlan.ExtensionExact | internal/profiles/import.go:519-519 | The extension is the last dot and what follows it. |
| ImportPlan.ImportPolicyUsual | internal/profiles/policy.go:31-47 | No content has two protocols, and exactly WireGuard contents have a key identity. |
| ImportPlan.OneProtocol | internal/profiles/import.go:197-217 | Under the two concrete policies: a file accepted under its detected protocol, override or not, that has the content of a stored profile is of that profile's protocol and has its key. |
| ImportPlan.ValidateEnvelope | internal/profiles/import.go:495-516 | Accepts exactly 1 to 100 files of allowed sizes with known overrides and a total within the limit; capacity is reported exactly for too many files. |
| ImportPlan.BoundInjective | internal/profiles/import.go:452-465 | A record without issues is determined by the fields that the receipt binds. |
| ImportPlan.FitsWritable | internal/profiles/import.go:452-465 | Every record of an accepted file fits the encoding's field widths. |
| ImportService.Index | internal/profiles/import.go:169-174 | The two maps over the library hold exactly its contents and identifiers. |
| ImportService.LibraryEntry | internal/profiles/import.go:213-221 | A file with the content of a stored profile gets that profile's identity, whose protocol and key agree with what was detected in the file. |
| ImportService.RepeatedStep | internal/profiles/import.go:213-221 | A content seen before, in the library or in an earlier file, is planned under the same identity, and the plan stays consistent. |
| ImportService.FreshStep | internal/profiles/import.go:222-234 | A content not seen before is planned as new under an ID and identifier that neither the library nor the batch has. |
| ImportService.Service.GenerateIdentity | internal/profiles/import.go:387-409 | Success gives a well-formed ID whose runtime identifier is unused, and for WireGuard not taken on the host. |
| ImportService.Service.Examine | internal/profiles/import.go:180-212 | A record without issues says exactly what is found in the file; without faults a record has issues only for an unacceptable file; a record with an issue names no identity. |
| ImportService.Service.InspectFiles | internal/profiles/import.go:169-235 | Ready to commit means a complete plan for these files against this library; without faults it is ready exactly when every file is acceptable; no new WireGuard record gets a runtime name that is taken on the host; file by file, a record has an issue exactly when its file is not acceptable, unless something failed, and then names no identity. |
| ImportService.Service.Inspect | internal/profiles/import.go:154-242 | A receipt is issued exactly for a ready inspection of a valid envelope, binds its revision, expiry and records, and lasts one hour; a busy gate refuses; there is one record for every file. |
| ImportService.Service.Sign | internal/profiles/import.go:422-429 | The receipt seals the MAC of the canonical input, and is remembered as issued. |
| ImportService.Service.ReinspectOne | internal/profiles/import.go:355-383 | Success gives a record that fits the file and looks to a client like the bound one, whatever digest, key or override the bound one carries; without faults it fails exactly when no such record exists. |
| ImportService.Service.ReinspectBound | internal/profiles/import.go:351-385 | Everything not sent to the client is derived again from the files; without faults it fails exactly when no fitting records look like the supplied ones. |
| ImportService.DerivedFits | internal/profiles/import.go:376-382 | A record that fits its file is the one derived from anything that looks the same to the client. |
| ImportService.AllDerivedFit | internal/profiles/import.go:351-385 | The same for lists: records sent to a client and back, without digest, key and override, are derived again exactly. |
| ImportService.NoneFits | internal/profiles/import.go:353-383 | One file that no record fits refuses every list that looks like the supplied one. |
| ImportService.CheckMetadata | internal/profiles/import.go:268-279 | Accepts exactly one valid metadata record per file. |
| ImportService.Service.CheckRequest | internal/profiles/import.go:249-294 | What passes was acknowledged, admitted and has not expired, and carries the MAC of the records derived from the files; without faults every correct request passes, whatever it carries of the fields a client does not have; an expired receipt is reported exactly for a complete request whose receipt decodes to an earlier time. |
| ImportService.Service.AuthenticIssued | internal/profiles/import.go:287-294 | An authentic receipt whose MAC nobody forged is one of those issued by then, for exactly this revision, expiry and these records. |
| ImportService.Service.OutdatedRefused | internal/profiles/import.go:291-305 | A request whose receipt was issued, if at all, before the current revision is not authorised for it. |
| ImportService.AssembleNext | internal/profiles/import.go:306-331 | One step of the loop that turns records into objects: what it accepts stays covered, and under a plan it always accepts. |
| ImportService.Assemble | internal/profiles/import.go:306-331 | Whatever it accepts gives every record its profile; it accepts every plan, with one object per new content and a valid joined library; what it accepts names no ID that the library has otherwise. |
| ImportService.ExactReplay | internal/profiles/import.go:478-488 | A replay exactly when every record still has its profile; each result is the profile holding its file's content. |
| ImportService.Service.Replay | internal/profiles/import.go:295-305 | A stale request never publishes; without faults it is an exact replay, or refused as a stale inspection. |
| ImportService.Report | internal/profiles/import.go:336-347 | Each ordinal's result is the library's profile of that record, holding that file's content. |
| ImportService.MadeAfter | internal/profiles/import.go:322-347 | The result of a new record is the profile made of that record's own file, metadata and name. |
| ImportService.Service.PublishObjects | internal/profiles/import.go:332-335 | Publication through the store keeps the service valid, and against another revision changes nothing. |
| ImportService.Service.PublishBatch | internal/profiles/import.go:306-348 | The library gains exactly the contents of the files it did not have, each once; every result holds its file's content, and a new one its own metadata and name; a record whose ID the library has, but not as the record says, is refused as a stale inspection. |
| ImportService.Service.Settle | internal/profiles/import.go:295-348 | Published against the current revision or replayed against another: never both, and a replay changes nothing; without faults a request for another revision is replayed or refused as a stale inspection. |
| ImportService.Service.Commit | internal/profiles/import.go:244-349 | Success needs the acknowledgement, the admission and a receipt that has not expired; the library changes only for a receipt authorised for its current revision; the contents gained are exactly the files', and every new profile is made of its own file, metadata and name; an unambiguous error changes nothing; without faults a correct request, with its records as a client has them, fails only as the cases say; a complete request with an expired receipt is refused as expired and changes nothing. |
| ImportService.Service.RemoveMember | internal/profiles/store.go:326-357 | A removal elsewhere leaves exactly the library without the profile and the service valid. |
| ImportService.InspectedIsCorrect | internal/profiles/import.go:236-294 | A ready inspection sent back with the same files, valid metadata and in time, and with whatever a client has of its records, passes every check of commit. |
| ImportService.ExpiryOfInspected | internal/profiles/import.go:236-240 | The receipt of an inspection carries the inspection's own expiry. |
| ImportService.CommitInspected | internal/profiles/import.go:244-349 | Against the inspected library, with the same files, valid metadata and the records as a client has them, and without faults or a busy gate, it succeeds exactly when the receipt has not expired and the new files fit; it publishes each new content once, and each result holds its file's content, a new one under its own name and metadata. |
| ImportService.CommitTwice | internal/profiles/import.go:295-305 | A request that published, committed again, returns the same profiles marked as already imported and leaves the manifest unchanged; if it is still correct and nothing fails, it succeeds. |
| ImportService.Recommit | internal/profiles/import.go:295-305 | The same for any later state of the library in which every record has its profile. |
| ImportService.CommitStale | internal/profiles/import.go:295-305 | A request that is not authorised for the current revision changes nothing, and succeeds only when the library still has every bound ID. |
| ImportService.CommitAfterRemoval | internal/profiles/import.go:244-349 | Right after a member is removed, no earlier receipt publishes or recreates anything, and none that binds the member succeeds. |
| ImportService.RunAfterRemoval | internal/profiles/import.go:244-349 | After a removal, through any run of inspections, commits, removals, connections, preferences, metadata edits and repairs: no commit with a receipt issued before ever changes the library, and one succeeds only while the library has every profile it binds. |
| ImportService.RunOutdated | internal/profiles/store.go:344-591 | The same from any library newer than the receipt; and revisions never go back: every operation keeps the manifest or raises its revision. |
| ImportService.Step | internal/profiles/import.go:244-349 | Each operation of such a run keeps the receipt outdated. |
| ImportService.Perform | internal/profiles/store.go:573-591 | Inspections, removals and edits keep the service valid and keep the manifest or raise its revision. |
| ImportService.Service.Maintain | internal/profiles/store.go:269-324 | The edits of the store keep identities genuine and keep the manifest or raise its revision. |
| Readiness.Drain | internal/tunnel/openvpn.go:270-342 | However the output is cut into chunks, readiness is signalled by its end exactly when some line, ended or last, less one carriage return, is the marker. |
| Readiness.Scanner.Feed | internal/tunnel/openvpn.go:270-306 | A chunk of any size extends the stream read so far and keeps the buffer within 4096, with readiness exact for the ended lines. |
| Readiness.Scanner.Hold | internal/tunnel/openvpn.go:278-295 | An unfinished line is kept, or discarded once it is too long to be the marker. |
| Readiness.Scanner.End | internal/tunnel/openvpn.go:278-302 | An ended line is compared without one trailing carriage return, unless it was discarded as too long. |
| Readiness.Scanner.Finish | internal/tunnel/openvpn.go:334-336 | At the end of the stream an unterminated last line counts too. |
| Readiness.LinesAreStream | internal/tunnel/openvpn.go:270-306 | The lines spoken of are the stream cut at its newlines and nowhere else. |
| OpenVPNProcess.ExitsAreFlagged | internal/tunnel/openvpn.go:238-268 | In every interleaving an exit is flagged unexpected exactly when activation was accepted and no stop was requested before the exit was recorded; the handler runs exactly once for such an exit, when all else is done, and for no other; it is told of a proved cleanup only when the session is empty. |
| OpenVPNProcess.OnlyOwnedAlive | internal/tunnel/openvpn.go:378-385 | In every interleaving a process that is not owned any more is reaped and its session is empty. |
| OpenVPNProcess.OwnershipMoves | internal/tunnel/openvpn.go:106-202 | Ownership is taken only from the process proved stopped, and given only to a new one when none is owned. |
| OpenVPNProcess.RunKeeps | internal/tunnel/openvpn.go:106-268 | Every run of the interleaved steps keeps the invariant of flags, log and ownership. |
| OpenVPNProcess.StepKeeps | internal/tunnel/openvpn.go:106-268 | Every single step keeps it. |
| OpenVPNProcess.StepSound | internal/tunnel/openvpn.go:344-385 | Every step keeps its process's flags equal to what its log says, and releases only what is proved stopped. |
| OpenVPNAdapter.Adapter.Start | internal/tunnel/openvpn_adapter.go:53-73 | Meets the manager's contract of a start, and brings up no other profile; while a profile is the owner it is refused and changes no owner; unproved cleanup takes two failures. |
| OpenVPNAdapter.Adapter.Stop | internal/tunnel/openvpn_adapter.go:75-89 | Meets the manager's contract of a stop; another profile's process is left alone. |
| OpenVPNAdapter.Adapter.Observe | internal/tunnel/openvpn_adapter.go:31-51 | Without an error it lists exactly the managed profile that is up; it errs exactly when the process's state is not clear or not managed. |
| OpenVPNAdapter.Adapter.Shutdown | internal/tunnel/openvpn_adapter.go:105-113 | Nil means that no process is left; nothing comes up and nothing is reported. |
| OpenVPNAdapter.Adapter.ExitByItself | internal/tunnel/openvpn.go:238-268 | An exit is to be delivered exactly when the process was accepted and not told to stop; its profile stays the owner until then; what is left of it is flagged as stopping. |
| OpenVPNAdapter.Adapter.Deliver | internal/tunnel/openvpn_adapter.go:121-130 | A delivered exit names the owner at its delivery, which is the profile whose process exited unless the owner has changed since; without an owner nothing is reported. |
| OpenVPNAdapter.Adapter.Activate | internal/tunnel/openvpn.go:106-192 | Nil means running, ready and accepted; a failure without unproved cleanup leaves things as found; unproved cleanup takes two failures. |
| OpenVPNAdapter.Adapter.Deactivate | internal/tunnel/openvpn.go:194-202 | Nil means that no process is owned; a failure leaves it flagged as stopping and brings nothing up. |
| WireGuard.Backend.Start | internal/tunnel/wireguard.go:79-100 | Meets the manager's contract of a start, although effects may land late: nil means up with the profile's key; a failure without unproved cleanup leaves every interface as found; an existing name is never touched; wg-quick down is given only an interface with the profile's key; a backend that only observes refuses and runs nothing; after a single failure cleanup is unproved only if the interface came up with a foreign key. |
| WireGuard.Backend.BringUp | internal/tunnel/wireguard.go:93-99 | Nil means up with the profile's key; an error without unproved cleanup means absent; without faults, and with a poll that waits long enough, it comes up. |
| WireGuard.Backend.CleanupFailedStart | internal/tunnel/wireguard.go:102-128 | The interface is proved absent again or unproved cleanup is reported; it is taken down only after its key matched; without further failures only a foreign key makes it unproved. |
| WireGuard.Backend.Stop | internal/tunnel/wireguard.go:130-158 | Meets the manager's contract of a stop, although effects may land late: nil means absent; wg-quick down is given only an interface with the profile's key; no other interface is touched; an interface with a foreign key is refused as such; a backend that only observes refuses and runs nothing. |
| WireGuard.Backend.BringDown | internal/tunnel/wireguard.go:151-157 | Nil means absent; without faults, and with a poll that waits long enough, it goes down. |
| WireGuard.Backend.WaitFor | internal/tunnel/wireguard.go:173-205 | Nil means that the interface is as expected, with the profile's key; an effect that lands between two looks before the deadline is seen. |
| WireGuard.Backend.Observe | internal/tunnel/wireguard.go:46-77 | Without an error it lists exactly the tunnels that are up, and no managed name is taken by another key; without faults it errs only for shared names or foreign keys. |
| WireGuard.Backend.Matches | internal/tunnel/wireguard.go:220-232 | A key that was read decides whether the tunnel is up. |
| WireGuard.Backend.Available | internal/tunnel/wireguard.go:33-44 | Nil exactly when wg answers and wg-quick is there; it changes no interface. |
| WireGuard.ByName | internal/tunnel/wireguard.go:51-60 | Two profiles with one runtime name are refused, and only they. |

## Left out

What the model assumes:

- The changes of one name on the disk persist in the order they were made, and so do an object and the manifest: a filesystem that loses a completed but unsynced rename after a later, synced change of another directory is outside the crash model.
- A sync that succeeds after an earlier one failed is taken to make the visible state durable.
- SHA-256 is symbolic and injective, hexadecimal and UTF-8 encodings are injective, and, where a result says so, whatever message has a receipt's MAC was issued by this service; keys and randomness are not modelled.
- Unicode case mapping and folding, and the standard library's parsers of prefixes, addresses, endpoints and WireGuard keys, are parameters; of the case mapping only ASCII and white space are assumed.
- The effect of a wg-quick run may land late, between two looks of the poll that waits for it, but one that has not landed when its operation ends never does; interfaces, processes and library files are changed by nobody else.
- For the manager, the exit of a process and the queueing of its report are one step; reports with arbitrary fields may be queued besides. A report that the adapter drops because its profile was stopped in the meantime is not modelled there.
- Clocks are inputs or choices, and timeouts are failures; the polling loop has a number of looks instead of a deadline.
- A crash may leave the special directories (transactions, garbage, executions) in any state, so that the syncs of those directories are only points of failure.

Members stated weaker than one might wish:

- ImportService.CommitInspected: asks that no object of another content already stands under a planned random ID in the protocol directories, because such an object makes the store refuse the batch.
- Disk.FileSystem.RemoveTransaction: the recursive deletion is one step that leaves any remainder when it fails.
- ProfileStore.Store.PrepareExecution: a failed preparation whose own cleanup fails may leave a copy that nobody tracks until the next opening sweeps it.
- Opening.CleanupRemnants: claims emptiness for the special library directories only; temporary manifest files in the state root are not swept by the code.
- Library.ValidateManifest: revisions are unbounded, so the wrap of the 64-bit revision is not modelled, and times are numbers.
- Policies.ValidateOpenVPNImport: says whether a text is accepted, not with which code, message and line number it is refused.

What the repository does besides:

- JSON encoding and decoding of the manifest with its size limit, the lock file, permissions, owners, symbolic links and the creation of private directories.
- Read-only mode, and the status, views, availability and last-error texts of the manager.
- The inspector of OpenVPN configurations before a start (`internal/tunnel/openvpn_config.go:36-154`), whose directive checks differ from the import policy's; that an imported profile passes it is not claimed.
- `parseWireGuardDump`, `validateWireGuardProfile`, protocol status, redaction and logging of diagnostics: they would add only easy members.
- The scan of a session in `/proc`, signals and process descriptors: the model has the number of members left; capturing a new process's identity is part of the step that starts it.
- Metadata suggestions and the metadata document of an import request.
- The recents as the manager changes them: its record of the store has no list of them, so that Connect and startup ask for them to be extended (`internal/manager/manager.go:342-393`, 535) is not stated of the manager; what the store then does with them is.
- The HTTP interface, the browser interface, the installer and the release scripts.
