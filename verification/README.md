# Verification of the access agent's transactional core

The repository is a privileged agent that connects a machine to an access line, disconnects it,
and recovers it after failures, crashes and reboots. This project models the parts on which that
promise rests and proves their properties with Dafny 4.11 (`dafny verify dfyconfig.toml`).

Two forms recur. Protocols between threads, processes and crashes are step machines: a state, the
actions that any party may take, and theorems over every run. Operations that change state step
by step are classes and methods; where a crash may strike between any two effects, the modelled
device records its state after every single effect in `history`, and the theorem is about all of
its entries. A call that may fail chooses its outcome freely, or is told it by a `Plan` where a
theorem says for which outcomes something holds; it may have taken effect when it fails unless its
contract says otherwise.

| files | component |
|---|---|
| `ControllerState`, `ControllerRuns`, `ControllerSafety`, `ControllerRestores`, `ControllerProgress`, `ControllerWitness` | the connection controller: its critical sections, any number of client, owner and monitor goroutines, safety, what "prepared" rests on, progress, and runs that show what is not promised |
| `DarwinNetwork` | the journaled macOS network manager |
| `CoreGate`, `CoreRecovery` | the macOS gate that lets a core run only after its identity is durable, and its recovery, as a protocol and call by call |
| `LedgerState`, `RuntimeOwner` | publication of sensitive files under a durable ownership ledger |
| `Cidr` | prefix subtraction and complements, IPv4 and IPv6 (section 3.1 of RFC 4632) |
| `WinSupervisor`, `Redactor` | teardown of a Windows process tree; redaction and bounding of its output |
| `FirewallState`, `FirewallRuns`, `FirewallJournal` | the installer's firewall journal: what it says and what its rollback leads to, where a run of the installation ends, and the two modes themselves |
| `DiagnosticGate`, `TraceFrames`, `TraceSecrets`, `TraceRecorder` | the opt-in diagnostic stream from child output to the reader, with the bytes of its frames and what redaction makes of them |
| `LineProbe`, `LocalApi` | line probing, its schedule, and the local API's responses |

Where the code does less than one might expect, the project keeps the code as it is, shows the
failing case, and proves exactly when the code does meet the property:

- A Disconnect that detached a monitor whose `StartMonitor` then fails waits forever
  (`ControllerProgress.StuckIffStartMonitorFailed`, `ControllerWitness.StuckRun`).
- "Prepared" is reported without a restoration in the same transaction exactly by a Connect that
  failed a pre-check and by a Disconnect or Recover that took the shortcut
  (`ControllerRestores.PreparedWithoutRestorationIff`). Only the shortcut presupposes an earlier
  restoration (`ControllerRestores.ReconciledIff`, `ControllerWitness.ShortcutIff`); both cases occur
  without any call of a dependency (`ControllerWitness.PreparedAfterPrecheckRun`,
  `ControllerWitness.PreparedWithoutReconcileRun`).
- The redactor's output depends on how the child's writes are split, for exactly the secret lists
  that are not stable (`Redactor.SplitIndependentIffStable`).
- A publication that reports an error loses the previous contents of the file exactly when it had
  replaced the file and touched the backup, and either the name was finalized, after which nothing is
  taken back, or one of the two restoring renames failed (`RuntimeOwner.PublishAt`,
  `RuntimeOwner.PreviousIsLostIff`, `RuntimeOwner.CommitIsExact`); `RuntimeOwner.PreviousContentsLost`
  shows one of each kind.
- A Stop can wait forever exactly when it comes after another Stop, before the cleanup has begun,
  while the root process lives and waitLoop has not seen it exit
  (`WinSupervisor.StopHangsIff`, `WinSupervisor.SecondStopCanHang`).
- A query of the firewall installation that fails hides the rule it asked for. A hidden rule that is
  exactly the installer's is removed by the rollback; one that differs is left alone, but from then on
  no rollback can come to its end and no installation can begin (`FirewallRuns.HiddenRuleDecides`,
  `FirewallRuns.HiddenRuleIsLost`, `FirewallRuns.HiddenRuleBlocks`, `FirewallJournal.BlockedForGood`).
  Without a hidden rule a rollback after a begun installation returns the rules from before, wherever
  that was cut short; before the first write it does so exactly when it comes to no rule that an
  earlier operation left (`FirewallRuns.RulesReturnIff`, `FirewallRuns.EarlierInstallationIsUndone`).
- The IPv6 complement skips an exclusion whose address is an IPv4-mapped one, even when its prefix is
  short enough to meet the base; the result is the base less all exclusions exactly when the others
  use up what the skipped ones share with the base (`Cidr.RelevantIsAll6Iff`,
  `Cidr.MappedExclusionIsIgnored`).
- A trace page that is cut down to no event at all is refused by the client. It is cut down so far
  exactly when no frame with an event fits (`TraceRecorder.ServeWith`), which never happens without
  redactions or with secrets that are not shorter than the mark (`TraceFrames.OneEventFits`). No
  smaller length is enough for a list of secrets (`TraceSecrets.LengthDecides`), and single secrets of
  one to six bytes suffice to overflow every page that begins with some recorded event
  (`TraceSecrets.ShortSecretNeverFits`, `TraceSecrets.EscapeSecretNeverFits`,
  `TraceRecorder.ShortSecretEmptiesThePage`). The agent configures no redactions for its pipe
  (cmd/overseas-agent/main_windows.go:298).

## Model

| member | source | states |
|---|---|---|
| ControllerState.Controller.EnterConnect | internal/agent/controller.go:222-259 | In place: Connect answers from a settled connected or failed_safe status, joins or awaits a running transition, or takes the slot with a fresh generation; the whole new state equals the step of the interleaving model |
| ControllerState.Controller.EnterDisconnect | internal/agent/controller.go:328-346 | In place: Disconnect and Recover await a running transition, take the shortcut for a recovery with nothing held, or take the slot; equals the model step |
| ControllerState.Controller.CommitConnect | internal/agent/controller.go:264-290 | In place: the commit stores what the transaction left, sets connectedAt and the monitor only for a connection of its own generation, and frees the slot; equals the model step |
| ControllerState.Controller.CommitDisconnect | internal/agent/controller.go:347-375 | In place: the commit clears what a successful restoration undid, keeps the rest, and frees the slot; equals the model step, which automaticRestore shares |
| ControllerState.Controller.EnterAutomaticRestore | internal/agent/controller.go:964-989 | In place: a failed monitor takes the slot only in its own generation, while connected and with no transition active; equals the model step |
| ControllerState.Controller.UpdateLineQuality | internal/agent/controller.go:407-418 | In place: a quality is accepted exactly when it is a known one, for the present generation, while connected |
| ControllerSafety.RunIsSafe | internal/agent/controller.go:221-378 | The safety invariant of the controller holds in every state of every interleaving of Connect, Disconnect, Recover and monitor goroutines |
| ControllerSafety.NoMutationBesideACore | internal/agent/controller.go:709-749 | Restore and Reconcile are called, and a core is started, only when every core ever started has been proven terminated |
| ControllerSafety.AtMostOneCore | internal/agent/controller.go:626-633 | At no time is more than one core not proven terminated |
| ControllerSafety.PreparedOnlyAfterUndo | internal/agent/controller.go:709-765 | After a successful Capture the status is prepared or disconnected again only once that very snapshot was restored and, where the manager reports residue, zero residue was read afterwards |
| ControllerSafety.OutstandingUntilUndone | internal/agent/controller.go:774-803 | From a Capture on, its snapshot is the outstanding one in every state, until such a restoration happened |
| ControllerSafety.CapturedIsKeptNext | internal/agent/controller.go:564-573 | The goroutine that captured a snapshot stores it in its very next step, before any other call of its own; no other thread stores one in between, so from then on the stored snapshot is the outstanding one |
| ControllerSafety.OutstandingNeverLooksSafe | internal/agent/controller.go:564-573 | While a snapshot is outstanding the status is neither prepared nor disconnected |
| ControllerSafety.OnlyDisconnectLeavesFailedSafe | internal/agent/controller.go:229-233 | failed_safe is left only by the first section of a Disconnect or Recover, into restoring |
| ControllerSafety.IdleStatesHoldWhatTheySay | internal/agent/controller.go:247-289 | connectedAt is set exactly while connected, a known quality implies connected, and with no transition active connected means that an instance and a snapshot are held, prepared or disconnected that none is |
| ControllerSafety.GenerationGuardHolds | internal/agent/controller.go:264-276 | The owner of the slot always passes its generation guard, and the generation changes only when a thread takes the free slot |
| ControllerSafety.StaleMonitorChangesNothing | internal/agent/controller.go:931-989 | A monitor of an older generation, or a restore it wants, changes no field |
| ControllerSafety.ConnectNeverFindsARunningCore | internal/agent/controller.go:488-497 | No Connect that took the slot ever finds a core that may still run |
| ControllerSafety.ConnectMoveKeeps | internal/agent/controller.go:480-685 | Each call and section of runConnect keeps what the transaction knows of snapshot and core in line with what really happened, without ever calling against the contract |
| ControllerSafety.UndoMoveKeeps | internal/agent/controller.go:723-765 | Each step of the shared restore transaction keeps what is to be undone, and a transaction that reports success left no core and no snapshot behind |
| ControllerRestores.PreparedWithoutRestorationIff | internal/agent/controller.go:480-511 | Over every run: a commit makes the status prepared with no successful restoration in its own transaction if and only if it is a Connect that failed a pre-check or a Disconnect or Recover that took the shortcut |
| ControllerRestores.ReconciledIff | internal/agent/controller.go:347-375 | `reconciled` is set if and only if an earlier transaction of the run restored the network, with zero residue read where the manager reports it, and committed |
| ControllerProgress.NobodyBlockedForever | internal/agent/controller.go:1013-1027 | As long as the slot owner does not await a monitor whose StartMonitor failed, every blocked thread waits, directly or through the slot owner, on a thread that has a step to take |
| ControllerProgress.OwnerMovesOn | internal/agent/controller.go:327-378 | Each step of the slot owner frees the slot or brings it closer to freeing it by a finite measure; no step of another thread sets it back |
| ControllerProgress.CarrierMovesOn | internal/agent/controller.go:931-949 | The goroutine that a slot owner waits for closes the channel within a bounded number of its own steps |
| ControllerProgress.DetachedMonitorIsHeldOnce | internal/agent/controller.go:909-920 | While the slot owner holds a detached monitor the fields hold none; it is cancelled before it is awaited, and what is awaited is closed, was never started, or is carried by a goroutine |
| ControllerProgress.MonitorNeverAwaitsAMonitor | internal/agent/controller.go:964-1010 | A monitor, and the restore it runs, never waits for a monitor's done channel |
| ControllerProgress.StuckIffStartMonitorFailed | internal/agent/controller.go:305-315 | A waiting slot owner waits forever if and only if the StartMonitor of the awaited generation failed |
| ControllerProgress.StuckForever | internal/agent/controller.go:909-920 | In no continuation of such a run is the slot freed again |
| ControllerWitness.StuckRun | internal/agent/controller.go:305-312 | A concrete run from the initial state into that situation |
| ControllerWitness.ShortcutIff | internal/agent/controller.go:774-803 | A Disconnect or Recover that took the slot takes the shortcut if and only if nothing is held and `reconciled` is set; it then reports prepared, and no snapshot is outstanding and no core unproven |
| ControllerWitness.PreparedWithoutReconcileRun | internal/agent/controller.go:782-786 | A concrete run in which failed_safe turns into prepared without any call of a dependency |
| ControllerWitness.PreparedAfterPrecheckRun | internal/agent/controller.go:481-511 | A concrete run in which a first Connect with an ended context makes the status prepared though nothing was ever restored and no dependency called |
| DarwinNetwork.NetworkManager.Preflight | internal/platform/darwin/snapshot.go:102-133 | A baseline is reported only when the core's interface is absent and no planned destination is in the table |
| DarwinNetwork.NetworkManager.Prepare | internal/platform/darwin/snapshot.go:134-152 | Refuses while a journal or an active snapshot exists; otherwise starts a new generation, and on failure changes nothing |
| DarwinNetwork.NetworkManager.Capture | internal/platform/darwin/snapshot.go:153-185 | Makes the empty snapshot durable before anything is changed, only for the prepared baseline and generation; at every effect the journal covers the footprint |
| DarwinNetwork.NetworkManager.WaitTunReady | internal/platform/darwin/snapshot.go:198-232 | The polls one after the other: success means that the durable journal names the very interface found; routes and resolvers are untouched, and the footprint stays covered |
| DarwinNetwork.NetworkManager.PollTun | internal/platform/darwin/snapshot.go:204-221 | One poll under the mutex, which reads the active snapshot anew, so any other call may come between two polls: success means that the durable journal names the interface found in this poll, and anything else changes no snapshot |
| DarwinNetwork.NetworkManager.ActivateRoute | internal/platform/darwin/snapshot.go:255-271 | One route: the table gets a route only once the durable journal names it, and a destination that is taken is left alone; the core's interface may lose its routes at any step |
| DarwinNetwork.NetworkManager.ActivateTunRoutes | internal/platform/darwin/snapshot.go:233-285 | Success means that the product resolver is set and the journal is the completed snapshot, and, if the core's interface stayed, that all three routes are in the table; at every effect, also when it fails or the interface goes with its routes between two steps, the footprint is covered |
| DarwinNetwork.NetworkManager.RestoreDns | internal/platform/darwin/snapshot.go:305-317 | The resolvers are written only when they are exactly the product's, and a failure means a failed call or resolvers of somebody else |
| DarwinNetwork.NetworkManager.RemoveRoute | internal/platform/darwin/snapshot.go:319-342 | Only a route identical to the journaled one is deleted, and only in the same boot session; success means that no route to its destination is left |
| DarwinNetwork.NetworkManager.RestoreRoutes | internal/platform/darwin/snapshot.go:318-342 | After an error every remaining route is still tried: each one left belongs to another boot session or its own call failed |
| DarwinNetwork.NetworkManager.Restore | internal/platform/darwin/snapshot.go:291-350 | Only journaled routes of the same boot session and the product resolver go; an error keeps the journal or leaves nothing of it to undo; it fails only when a call failed or somebody else changed what the snapshot names; success from a covered state means routes and resolvers are those from before Capture and no journal is left |
| DarwinNetwork.ShrunkAgain | internal/platform/darwin/snapshot.go:291-350 | Repeated restores only shrink the product's footprint, as one restore would |
| DarwinNetwork.ClearedIsUntouched | internal/platform/darwin/snapshot.go:343-349 | When the journal covers the footprint and nothing it names is left, routes and resolvers are those from before |
| DarwinNetwork.AnyRun | internal/platform/darwin/snapshot.go:134-350 | For any sequence of calls by any succession of agents, each cut short at any effect, with interfaces coming and going and reboots: at every point the durable journal covers what differs, and a last Reconcile that succeeds restores everything |
| DarwinNetwork.System.Save | internal/platform/darwin/network_darwin.go:471-505 | The journal is replaced at once or not at all, and only by a valid snapshot; an error may come after the replacement |
| DarwinNetwork.System.DeleteRoute | internal/platform/darwin/network_darwin.go:347-367 | A scoped removal takes nothing but that route, and success was checked against the table |
| CoreGate.RunIsSafe | internal/platform/darwin/process_recovery_darwin.go:92-332 | In every run with crashes and reboots: each live core is named by the durable record, all live cores are one process group, and each recovery signal directly follows a boot check and two matches of its target |
| CoreGate.ExecsOnlyWhenRecorded | internal/platform/darwin/process_recovery_darwin.go:248-282 | A helper becomes the core only while the durable record names exactly its boot session, number and start |
| CoreGate.RecordGoesOnlyWhenSafe | internal/platform/darwin/process_recovery_darwin.go:220-246 | The record is never overwritten, and is removed only when no process lives that runs the core or may, by a supervisor after a proven stop or by a recovery |
| CoreGate.RemovalIsEarned | internal/platform/darwin/process_recovery_darwin.go:92-145 | A recovery comes to the removal only when the boot session changed or the recorded group has no live member; a supervisor only for its own unreaped child |
| CoreGate.StartsAlone | internal/platform/darwin/process_recovery_darwin.go:289-332 | While a core is being started nothing lives that could run another one |
| CoreGate.SupervisorSignalsItsOwn | internal/platform/darwin/process_darwin.go:183-268 | The supervisor's signals go to the group of its own child, whose number cannot have been reused |
| CoreGate.StrangersAreLeftAlone | internal/platform/darwin/process_recovery_darwin.go:114-127 | When another process has the recorded number, a recovery sends no signal and keeps the record |
| CoreGate.EofMeansNeverCore | internal/platform/darwin/process_recovery_darwin.go:248-261 | A helper whose gate can no longer be opened never becomes the core in any continuation |
| CoreGate.DeathAbandonsTheHelper | internal/platform/darwin/process_recovery_darwin.go:259-261 | The death of the agent before the release leaves the helper at such a gate |
| CoreGate.StaleRecordIsNeverFollowed | internal/platform/darwin/process_recovery_darwin.go:93-99 | In every run from a record of an earlier boot session, no process is inspected and none signaled before that record is removed |
| CoreGate.StaleRecordNeverBlocks | internal/platform/darwin/process_recovery_darwin.go:93-99 | There is always a step on the way to its removal, and the removal is one of them |
| CoreGate.RebootMakesStale | internal/platform/darwin/process_recovery_darwin.go:93-99 | After any run no record is of a later boot session, so a reboot makes the record, if there is one, such a record |
| CoreGate.StaleRecordIsDropped | internal/platform/darwin/process_recovery_darwin.go:93-99 | Such a record does not stand in the way: after it is dropped the next start goes ahead |
| CoreRecovery.RecoverCore | internal/platform/darwin/process_recovery_darwin.go:92-145 | It succeeds exactly when the calls it made prove the core gone: another boot session, or no leader and an empty group, or one signal and the group empty after it; it signals only the recorded number, as its fourth call, after the recorded boot session and two inspections that found the recorded identity |
| CoreRecovery.RecoverOwnedCore | internal/platform/darwin/process_recovery_darwin.go:236-246 | The record goes only when the calls prove its core gone, and success leaves no record |
| LedgerState.NewIntentIsValid | internal/runtimeowner/owner.go:115-128 | Whatever random parts are drawn, a new intent passes the reader's validation and names three transients different from each other and from the target |
| LedgerState.NormalizedIsNormal | internal/runtimeowner/owner.go:318-323 | Normalizing sorts intents and names strictly and keeps validity and members |
| LedgerState.NormalIsStable | internal/runtimeowner/owner.go:318-323 | Writing a normal ledger back changes nothing, so the saved previous ledger comes back as it was |
| LedgerState.AddThenRemove | internal/runtimeowner/owner.go:335-343 | Adding an intent for a new target, sorting and removing it again leaves exactly the intents from before |
| LedgerState.AscendingIsDetermined | internal/runtimeowner/owner.go:358-369 | A sorted list of distinct names is determined by its members |
| RuntimeOwner.SecureRemove | internal/runtimeowner/owner.go:239-278 | Touches no other path and not the ledger at any effect; success means that the name is gone |
| RuntimeOwner.CopyFile | internal/runtimeowner/replace_stub.go:40-55 | Touches only the copy, refuses to overwrite one, and on success equals the source |
| RuntimeOwner.PublishFile | internal/runtimeowner/replace_stub.go:21-31 | The destination holds its old or the source's contents at every effect; an error leaves it as it was, success keeps the old contents in the backup |
| RuntimeOwner.RestoreFile | internal/runtimeowner/replace_stub.go:33-38 | Success puts the backup's contents back; after an error the destination is missing or unchanged and the backup still there |
| RuntimeOwner.SetPhase | internal/runtimeowner/owner.go:129-136 | In place: the one intent of the target gets the phase, every other stays |
| RuntimeOwner.RemoveIntent | internal/runtimeowner/owner.go:335-343 | In the same array: the intents of the other targets move down and keep their order |
| RuntimeOwner.AppendIntent | internal/runtimeowner/owner.go:66-67 | Appends in the shared array when there is room, else in a new one |
| RuntimeOwner.Normalize | internal/runtimeowner/owner.go:318-323 | Sorts the shared array in place into the normal form |
| RuntimeOwner.LoadLedger | internal/runtimeowner/owner.go:173-192 | Succeeds only for a valid or missing ledger and yields its normal form in an array of its own |
| RuntimeOwner.IntendedIsPending | internal/runtimeowner/owner.go:66-95 | Every ledger a transaction writes passes the reader's validation, is in normal form, and still names everything the ledger named before, besides the intent |
| RuntimeOwner.PendingCovers | internal/runtimeowner/owner.go:66-112 | While the intent is durable every path that differs from before the transaction is named by the ledger |
| RuntimeOwner.CompensateBefore | internal/runtimeowner/owner.go:137-142 | Either everything is as before the transaction or the intent is still durable; the ledger names what differs at every effect |
| RuntimeOwner.CompensateAfter | internal/runtimeowner/owner.go:143-156 | As above, after the publication; the files are exactly those that the outcomes of the two renames and the wipes say, so that PreviousIsLostIff tells when the previous contents are gone |
| RuntimeOwner.PreviousIsLostIff | internal/runtimeowner/owner.go:143-156 | After a compensation the previous contents are in none of the four files if and only if one of the two restoring renames failed and the wipe of the backup was carried out or begun |
| RuntimeOwner.CommitIsExact | internal/runtimeowner/owner.go:99-112 | Once the name is finalized the target holds the new contents whatever follows, success means a wiped backup and a completed ledger, and the previous contents are lost exactly when the wipe of the backup was carried out or begun |
| RuntimeOwner.Commit | internal/runtimeowner/owner.go:98-112 | The name is finalized while the intent still owns the transients; a completed commit leaves no transient and no intent, and the target holds the new contents throughout |
| RuntimeOwner.StageTemporary | internal/runtimeowner/owner.go:72-89 | Only the temporary file changes; success means that it holds the contents and the phase is recorded |
| RuntimeOwner.PublishAt | internal/runtimeowner/owner.go:45-113 | Success: new contents in the target, nothing else changed, the name finalized, no intent, and the target old or new at every effect. Error: everything as before, or the intent durable so that the next publication refuses. For every outcome of its calls over a regular target: whether it succeeds, and that the previous contents are lost if and only if the target was replaced, the backup touched, and the name finalized or a restoring rename failed. In either case the ledger names what differs at every effect; it fails only for a fault, a name or place not supported, an invalid ledger, an irregular target or an unresolved intent |
| RuntimeOwner.PreviousContentsLost | internal/runtimeowner/owner.go:94-111 | Two concrete publications that report an error and after which the previous contents of the target are in no file at all, one taken back and one finalized; the next one refuses |
| RuntimeOwner.AnyRun | internal/runtimeowner/owner.go:41-113 | Over any run of publications, each failing or cut short anywhere, the durable ledger stays valid and names every path that differs from the start of the run |
| Cidr.SubtractIsMaximal | internal/agent/network_windows.go:1233-1253 | Subtraction yields exactly the largest prefixes of the candidate that miss the exclusion |
| Cidr.SubtractIsApart | internal/agent/network_windows.go:1308-1327 | The prefixes it yields are pairwise disjoint |
| Cidr.SubtractFromAll | internal/agent/network_windows.go:1215-1223 | Subtracting one more exclusion from the maximal prefixes gives the maximal prefixes of the longer list |
| Cidr.ComplementUnsorted | internal/agent/network_windows.go:1206-1226 | The loop ends with exactly the maximal prefixes of the base outside the exclusions of its family, each once |
| Cidr.ComplementIPv4 | internal/agent/network_windows.go:1206-1231 | Sorted strictly by address and length, and covering exactly the addresses that no argument excludes, arguments being any prefixes, also invalid ones; as many addresses as the sizes add up to, as few prefixes as possible, and the same list for any arguments that exclude the same |
| Cidr.ComplementIPv6From | internal/agent/network_windows.go:1288-1306 | The same for a 128-bit base, sorted strictly by the text forms; it covers exactly what no argument excludes if and only if the other exclusions use up what the skipped ones, of IPv4-mapped addresses, share with the base |
| Cidr.RelevantIsAll4 | internal/agent/network_windows.go:1206-1214 | For a 32-bit base the exclusions that the loop considers exclude the same addresses of the base as the whole argument list |
| Cidr.RelevantIsAll6Iff | internal/agent/network_windows.go:1288-1296 | For a 128-bit base they do so if and only if of each skipped exclusion that meets the base the others use up what it shares with the base |
| Cidr.MappedExclusionIsIgnored | internal/agent/network_windows.go:1288-1296 | A concrete case: an exclusion that contains the whole base is skipped and all of the base is left |
| Cidr.ComplementCoversExactly | internal/agent/network_windows.go:1206-1226 | An address lies in the result if and only if it lies in the base and in no exclusion |
| Cidr.ComplementsAgree | internal/agent/network_windows.go:1206-1226 | The result depends only on which addresses are excluded, not on the order, repetition or splitting of the exclusions |
| Cidr.ComplementIsMinimal | internal/agent/network_windows.go:1206-1226 | No set of prefixes that holds exactly the allowed addresses has fewer members |
| Cidr.ComplementSize | internal/agent/network_windows.go:1206-1226 | The sizes of the prefixes add up to the number of allowed addresses |
| Cidr.ArgumentsMeasured | internal/agent/network_windows.go:1206-1226 | Size and minimality hold of the argument list wherever the considered exclusions exclude the same |
| Cidr.ResultIgnoresOrderAndRepetition | internal/agent/network_windows.go:1227-1231 | Two exclusion lists that exclude the same addresses give the very same sorted list |
| Cidr.SortedIsUnique | internal/agent/network_windows.go:1227-1231 | Only one strictly sorted list has given elements |
| Cidr.NormalizeFirewallPrefixes | internal/agent/network_windows.go:1185-1204 | Replacing the whole IPv6 space by its halves covers the same addresses |
| Cidr.HighHalfIsOr4 | internal/agent/network_windows.go:1243-1250 | The second half of an IPv4 prefix has the word `address | 1 << (32 - childBits)` |
| Cidr.HighHalfIsOr6 | internal/agent/network_windows.go:1318-1325 | The second half of an IPv6 prefix differs in one byte, by the bit `1 << (7 - newBit % 8)` |
| WinSupervisor.RunIsSafe | internal/supervisor/process_windows.go:444-578 | In every interleaving of waitLoop, Stop and readiness failures: one owner of the cleanup at most, which always has the job handle; the job closed at most once, and once by the end of the cleanup; cleanupDone and then done closed at most once each |
| WinSupervisor.ProofMeansEmpty | internal/supervisor/process_windows.go:358-365 | Termination is proven only for a tree without processes, which stays so; a cleanup that reports no error has proven it |
| WinSupervisor.TeardownKeeps | internal/supervisor/process_windows.go:495-547 | Each native call of the owner keeps what it knows of root and job true and closes the job exactly once on every path, also when calls fail; an owner without failures saw the tree empty |
| WinSupervisor.TerminateForFailure | internal/supervisor/process_windows.go:508-546 | The owner's native calls are exactly the steps of the modelled teardown, it reports what that knows, and a handle is closed exactly once |
| WinSupervisor.CleanupJobAfterRootExit | internal/supervisor/process_windows.go:589-615 | The same after the exit of the root |
| WinSupervisor.UnblockedMoves | internal/supervisor/process_windows.go:280-356 | A thread that waits for nobody has a step of its own, which it can take without any call succeeding |
| WinSupervisor.QuietMeans | internal/supervisor/process_windows.go:291-329 | When nothing moves any more, everybody has returned, or the root process survived and those who wait are waitLoop and Stop calls that came after another Stop but before the cleanup began |
| WinSupervisor.StopHangsIff | internal/supervisor/process_windows.go:280-329 | In every reachable state: a Stop that enters there can still wait when nothing moves any more if and only if it finds another Stop before it, the cleanup not begun, the root process alive and waitLoop waiting |
| WinSupervisor.EverybodyReturns | internal/supervisor/process_windows.go:444-493 | Once the root process is gone nobody waits forever, done is closed and the job closed once |
| WinSupervisor.SecondStopCanHang | internal/supervisor/process_windows.go:291-329 | A concrete run in which such a second Stop waits forever |
| Redactor.SplitIndependentIffStable | internal/supervisor/process_windows.go:975-1020 | The output after Flush is the same for every split into writes, and is the left-to-right first-match replacement of the whole text, if and only if each secret that is a proper prefix of an earlier one is preceded by a prefix of both |
| Redactor.UnshadowedIsStable | internal/supervisor/process_windows.go:975-1020 | In particular when no secret is a proper prefix of an earlier one |
| Redactor.FeedIsRedact | internal/supervisor/process_windows.go:975-1011 | Any sequence of writes and a flush, starting with any held bytes, yields the replacement of the whole |
| Redactor.UnstableSplitDiffers | internal/supervisor/process_windows.go:1013-1020 | For any other list there are writes whose output differs |
| Redactor.StreamRedactor.Write | internal/supervisor/process_windows.go:975-981 | In place: what is emitted and held back; held bytes are a proper prefix of a secret or none, and the destination has got the limited prefix of all output |
| Redactor.StreamRedactor.Flush | internal/supervisor/process_windows.go:983-987 | After a flush nothing is held back, and for stable lists the output since the last flush is the replacement of all that was written since |
| Redactor.BoundedTailWriter.Write | internal/supervisor/process_windows.go:1069-1086 | The buffer always holds the last `max` bytes of all writes |
| Redactor.BoundedPrefixWriter.Write | internal/supervisor/process_windows.go:1043-1058 | The destination always holds the first `max` bytes of all writes |
| FirewallJournal.Install | cmd/installer-verifier/main_windows.go:258-287 | The mode ends where the pure run ends, and cut short at any effect where some run with the same answers to its queries ends; success means every definition is in force and owned and every earlier rule untouched; it fails only for a fault, an unfinished operation, an unreadable journal or a rule that is not ours |
| FirewallJournal.InstallOne | cmd/installer-verifier/main_windows.go:264-283 | One definition: intent, then absence, then the rule, then the outcome, each durable before the next |
| FirewallJournal.Rollback | cmd/installer-verifier/main_windows.go:288-310 | At every effect the rollback still leads to the same end and only rules exactly those of pending entries are gone, so it may be cut short and repeated. Without faults it ends where RollbackEnd says and completes if and only if nothing obstructs it; completing undoes the operation; where the last entry's rule was changed it has no effect at all |
| FirewallState.RollbackCompletesIff | cmd/installer-verifier/main_windows.go:288-310 | A rollback without faults undoes the whole operation if and only if the journal can be read and no rule of a pending entry was changed; otherwise it stays as obstructed as before, and repeating it changes nothing |
| FirewallState.RollbackLosesIff | cmd/installer-verifier/main_windows.go:292-304 | It removes a rule if and only if, counting from the last entry, it comes to the rule of a pending entry before it comes to a changed one |
| FirewallState.UndoneAfterResolve | cmd/installer-verifier/main_windows.go:303-306 | Disowning a rule that is gone and resolving its entry changes nothing of where the rollback leads |
| FirewallState.ConsistentLeadsBack | cmd/installer-verifier/main_windows.go:258-310 | From any point of an installation a completed rollback leads to the rules and ownership before it, less what the operation may have created; with truthful queries to exactly the rules before |
| FirewallRuns.OwnershipReturns | cmd/installer-verifier/main_windows.go:252-257 | After a completed rollback of a begun run no rule the operation may have created is owned, and every other one as before |
| FirewallRuns.RulesReturnIff | cmd/installer-verifier/main_windows.go:258-310 | Over every run of an installation, wherever it ends, where a rollback then ends the rules are those from before if and only if, in a run that made its first write, each rule hidden by a query differed from its definition and the run had added nothing before it, and otherwise the rollback comes to no rule that an earlier operation left. It cannot complete if and only if such a hidden rule differed, or nothing was written and it could not before |
| FirewallRuns.UnhiddenRunReturns | cmd/installer-verifier/main_windows.go:258-310 | After a begun run whose queries hid nothing a rollback can complete, and the rules are then those from before |
| FirewallRuns.HiddenRuleDecides | cmd/installer-verifier/main_windows.go:264-283 | A hidden rule that differs from its definition obstructs every rollback, which then changes nothing; one that does not is exactly what a rollback takes away from the rules before |
| FirewallRuns.TruthfulRulesReturnIff | cmd/installer-verifier/main_windows.go:258-310 | With truthful queries: the rules come back from the end of every run if and only if a rollback comes to no rule that an earlier operation left, and a rollback can complete after every run if and only if nothing obstructed one before |
| FirewallRuns.CutIsRunEnd | cmd/installer-verifier/main_windows.go:264-283 | A crash within an iteration ends like a run with the same answers in which the next command fails |
| FirewallRuns.EarlierInstallationIsUndone | cmd/installer-verifier/main_windows.go:288-310 | A run that installs, then one that fails before its first write: the rollback removes the rule of the first |
| FirewallRuns.HiddenRuleIsLost | cmd/installer-verifier/main_windows.go:268-283 | A run that installs, then one whose query fails: it creates nothing, and its rollback removes the rule of the first |
| FirewallRuns.HiddenRuleBlocks | cmd/installer-verifier/main_windows.go:268-283 | A run whose query fails on somebody else's rule: the rule stays, no rollback can complete and no later installation begins |
| FirewallJournal.InstallThenRollBack | cmd/installer-verifier/main_windows.go:258-310 | An installation cut short anywhere, then rollbacks cut short any number of times and one without faults: it completes if and only if nothing obstructs it, the rules are those from before if and only if the condition of RulesReturnIff holds for that run, and only exact rules of pending entries were removed since its end |
| FirewallJournal.BlockedForGood | cmd/installer-verifier/main_windows.go:258-310 | After a hidden rule that differs, no sequence of rollbacks and installations has any effect |
| DiagnosticGate.LinesAreTheSpans | internal/diagnosticmode/gate.go:154-169 | The lines to be recorded are, each once and in order, exactly the newline-terminated lines of 1 to 4096 bytes all written in one window |
| DiagnosticGate.CompletesIffLine | internal/diagnosticmode/gate.go:155-160 | A byte completes a recorded line if and only if such a line ends with it |
| DiagnosticGate.OutputState.Put | internal/diagnosticmode/gate.go:154-169 | In place, byte by byte: what is held back and what was recorded is always determined by the whole output so far, however it was split into writes |
| DiagnosticGate.OutputState.Skip | internal/diagnosticmode/gate.go:147-153 | While nothing is recorded only the line-boundary bit is kept, and it is the right one |
| DiagnosticGate.OutputState.Clear | internal/diagnosticmode/gate.go:191-195 | Closing a window forgets the held bytes but not that a line is unfinished |
| DiagnosticGate.Gate.NewOutputStream | internal/diagnosticmode/gate.go:38-44 | A further stream with nothing written, which keeps its own lines |
| DiagnosticGate.Gate.Write | internal/diagnosticmode/gate.go:146-171 | A write goes to one stream, in the window that is open after the expiry check; what every stream recorded stays exactly its recordable lines |
| DiagnosticGate.Gate.Enable | internal/diagnosticmode/gate.go:74-105 | Only for 15, 30 or 60 minutes; renewing keeps the window, otherwise a new one opens; earlier timers become stale |
| DiagnosticGate.Gate.TimerFires | internal/diagnosticmode/gate.go:97-103 | A timer closes nothing but the window it was started for, and only if it was not renewed since |
| DiagnosticGate.Gate.Off | internal/diagnosticmode/gate.go:173-189 | Every stream is cleared, the timer stopped and the epoch moved on |
| TraceRecorder.Recorder.AppendMemory | internal/traceevent/recorder.go:122-129 | The ring, shifted in place when full, holds the last events put into it, valid and in strictly ascending sequence |
| TraceRecorder.Recorder.Record | internal/traceevent/recorder.go:63-76 | A valid event enters the ring first and at most one logging event follows it; an invalid one leaves at most such an event |
| TraceRecorder.Recorder.Persist | internal/traceevent/recorder.go:131-178 | Every outcome of the file adds at most one logging event, and the counted file size stays within its limit |
| TraceRecorder.Recorder.LoggingFailure | internal/traceevent/recorder.go:263-278 | Only the first failure since the file was opened is reported |
| TraceRecorder.Recorder.BatchAfter | internal/traceevent/recorder.go:78-98 | The batch is the next `limit` retained events after the cursor, with the right cursor and more-flag, and passes both validators |
| TraceRecorder.ValidTraceBatch | internal/agent/pipe_windows.go:256-274 | The server's loop accepts exactly the batches in order, of valid events, none before the oldest, with the matching cursor |
| TraceRecorder.CheckTraceMessage | internal/clientapi/client.go:302-331 | The client's loop accepts exactly the like, but tolerates a missing oldest sequence |
| TraceRecorder.BatchIsAccepted | internal/agent/pipe_windows.go:245-249 | Every batch of a sound ring passes both validators |
| TraceRecorder.FitTraceResponse | internal/agent/pipe_windows.go:276-303 | The longest prefix whose frame fits is sent, and none only if not even the empty one fits |
| TraceRecorder.PrefixIsAcceptedIff | internal/agent/pipe_windows.go:276-303 | A fitted prefix passes the validators if and only if it has an event or there was none to send |
| TraceFrames.QuotedTwice | internal/agent/pipe_windows.go:289-297 | A text quoted as a JSON string within a JSON string grows at most seven times, whatever its bytes |
| TraceFrames.RedactedWeighs | internal/agent/pipe_windows.go:305-311 | Replacing secrets that are not shorter than the mark never lets the quoted message become longer than the bound |
| TraceFrames.OneEventFits | internal/agent/pipe_windows.go:289-300 | The frame with a single recorded event is within 64 KiB, whatever the event, the request and the status, without redactions or with secrets that are not shorter than the mark |
| TraceSecrets.ShortSecretNeverFits | internal/agent/pipe_windows.go:305-311 | With a secret of one printable byte, quotes, backslash and `<>&` aside, no page fits that begins with an event whose texts are full of that byte |
| TraceSecrets.EscapeSecretNeverFits | internal/agent/pipe_windows.go:305-311 | Nor with a secret of one to six bytes that the escape sequence of `<` begins with, and texts full of `<` |
| TraceSecrets.LengthDecides | internal/agent/pipe_windows.go:305-311 | Every list of secrets of at least n bytes leaves every single recorded event within a frame if and only if n is at least the length of the mark |
| TraceSecrets.EmptyIsUntouched | internal/agent/pipe_windows.go:305-311 | The empty page fits then, and redacting the letter z leaves it as it is |
| TraceRecorder.ServeWith | internal/agent/pipe_windows.go:245-249 | What the server sends is the longest fitting prefix of the batch; it has an event if and only if some frame with an event fits, and the client accepts it if and only if it has one or there was none to read |
| TraceRecorder.ServeTrace | internal/agent/pipe_windows.go:245-249 | With no secret shorter than the mark a page is sent, and it has an event whenever there is one to read |
| TraceRecorder.ShortSecretEmptiesThePage | internal/agent/pipe_windows.go:276-303 | A recorded event and a redacted letter z: the page sent has no event though there is one to read, and the client refuses it |
| TraceRecorder.ReadPage | internal/clientapi/client.go:219-228 | Without redactions the client gets a page for every limit up to 64 in every state it knows, and only then; the page and what its cursor leads to are what was left to read |
| TraceRecorder.OnePage | internal/traceevent/recorder.go:78-98 | A page and what its cursor leads to are exactly what was left to read, and more is announced exactly when something is left |
| TraceRecorder.ReadAll | internal/clientapi/client.go:302-331 | Following the cursor over an unchanged ring, through frames cut to their size, ends, having yielded every retained event after the start once and in order |
| LineProbe.Aggregate.Update | internal/lineprobe/aggregate.go:17-52 | Each result is annotated in place with the smaller of 3 and its target's failed rounds in a row; the quality is failed when more than half of the targets failed three rounds, unchanged when too few answered, else slow or good by the median |
| LineProbe.MedianDecides | internal/lineprobe/aggregate.go:46-50 | The sorted middle element is a second or more exactly when at most half of the answers were faster |
| LineProbe.Scheduler.Start | internal/lineprobe/scheduler.go:63-96 | Only a later generation replaces the session; the results of the previous one are no longer shown |
| LineProbe.Scheduler.AggregateRound | internal/lineprobe/scheduler.go:182-188 | A round of any session ever started counts if and only if that session is current and alive |
| LineProbe.Scheduler.Tick | internal/lineprobe/scheduler.go:86-93 | The timer of a session that is not current or has ended starts nothing |
| LineProbe.Scheduler.Store | internal/lineprobe/scheduler.go:189-197 | Shown results are the accepted round of the current session under its own generation; a refused or stale one changes nothing |
| LineProbe.Scheduler.Begin | internal/lineprobe/scheduler.go:131-139 | A running round is joined, never doubled |
| LineProbe.RunningRound.Collect | internal/lineprobe/scheduler.go:166-181 | Whatever answers come in whatever order, there is one result in range for each target |
| LineProbe.AnyRun | internal/lineprobe/scheduler.go:63-198 | In every run, with goroutines of any session ever started and the controller's own sections in between, what is shown is empty or a round counted by the current session, under its generation, with one result in range per target |
| LocalApi.LocalHandler.Dispatch | internal/agent/local_dispatch.go:28-68 | Every response passes the results check: present results while connected only of the present generation, otherwise marked historical; the error codes exactly as the request deserves |
| LocalApi.ValidProbeResults | internal/localapi/protocol.go:123-156 | The loop that strikes targets off a set accepts exactly the results of known targets, each once, in range, and of a generation the status has reached |
| LocalApi.TargetsAreDistinct | internal/lineprobe/targets.go:7-18 | The targets are pairwise different, on which the schedule and the results check rest |
| LocalApi.StatusCache.Apply | internal/localapi/protocol.go:185-196 | A status is applied if and only if it is valid and not older than the one held |
| LocalApi.LatestIsNewest | internal/localapi/protocol.go:185-196 | The status kept after any arrivals is valid, of the newest generation, and the last of it |
| LocalApi.ApplyAll | internal/localapi/protocol.go:185-205 | Applying statuses one by one leaves exactly that one |

## Left out

- User interfaces, tray and menu-bar programs and platform bridges: presentation and transport.
- Native calls (job objects, process inspection, routing and resolver commands, sockets, key storage) are calls with free outcomes within stated contracts; so are clocks, randomness and the network.
- Status messages, most error codes and trace texts of the controller; its calls are atomic steps, as are its mutex-protected sections, and a memory model below that granularity is not part of the model.
- The legacy path for prepared pools (`legacyPrepare`, `legacyEnableProtection`, `capturePrepared`) and policy, configuration and inventory validation: single-pass checks.
- JSON decoding and YAML, SHA-256, regular-expression redaction: a decoder is taken to read what was encoded, fingerprints are the values they identify, and the trace sanitizer is any function that bounds its output and leaves something of the recorder's own messages, which stand for the source's. Trace frames are encoded byte by byte.
- Parsing of addresses in the journal validation, and the ownership and mode checks of the files: a snapshot or record refused for these reasons is one whose Save or Load fails.
- The directory sync after a journal is replaced or removed is part of the same step; that it may fail after the change took effect is modelled.
- Changes by others to the routes and resolvers from before a connection, and to firewall rules with the installer's names while it works: the properties that need it say so. The core's interface comes and goes between the calls of the network manager, while it waits for it and between the steps of an activation, not between two steps of a restoration.
- Partial failures of ReplaceFileW, the ledger's own temporary file (`.runtime-owned-*.tmp`), runtime files that are symbolic links, and the runtime-cleanup script: file operations are those of the portable implementation.
- RuntimeOwner.PublishAt: assumes that the random parts of the transient names are unused, since 128 random bits are drawn for each.
- Process numbers: a number is not reused while a process or a group has it, and number and start time identify a process within a boot session. The race between the second identity check and the signal is the kernel's and remains.
- CoreGate.StartsAlone: the supervisor is not asked to start while an earlier instance is unproven; that the controller keeps to this is ControllerSafety.NoMutationBesideACore.
- The failed-start path of the Windows supervisor and concurrent Stop calls on it, and writes to a diagnostic stream after its Close.
- Cidr.ComplementIPv6From: the text forms by which the source sorts are any strict order; the literal tables of special-purpose ranges (section 2.2.2 of RFC 6890) are arguments.
- Integer widths: sequence numbers, generations and epochs are unbounded; none is decremented, and 64 bits do not run out.
- The probe's HTTP exchange: its results are any within the documented ranges, for servers that answer with status codes up to 599.
- Frame sizes of the local API.
- TraceSecrets.LengthDecides: speaks of lists of secrets; of a single secret of seven to nine bytes nothing is said.
- TraceFrames.OneEventFits: asks for a sequence number below 2^64 and a residue's phase of at most 32 bytes; nothing in the repository sets that phase, and the phases of its snapshots have at most 9.
- TraceRecorder.ServeWith: the client is taken to read the batch that was encoded, which with redactions holds where, as in the failing case, nothing in the page is redacted.
- TraceRecorder.ReadAll: the ring does not change between two pages.
- The replacement of the firewall journal (`Move-Item -Force`) is one indivisible effect.
- The uninstall mode of the firewall script, and comparison of rules field by field without regard to case: a rule is its name and the rest as one text.
