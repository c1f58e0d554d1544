# Verified models of the gateway's core logic

A WhatsApp HTTP gateway keeps sessions connected, messages stored, keys accounted for and ids readable
while many asynchronous calls overlap. This project models its compact state machines and codecs in
Dafny and proves what their code and comments promise: over every run, every interleaving at an await,
or every input.

| file | what it models |
|---|---|
| `Connection.dfy` | the connection lifecycle of one session; an await-free stretch of code is one step |
| `MessageStore.dfy` | the capped message store, with the statements of concurrent puts interleaved |
| `KeyUsage.dfy` | API-key usage counting with a write-coalescing accumulator, serialised and interleaved |
| `HookRegistry.dfy`, `HookChain.dfy`, `HookManager.dfy` | the hook bus: upkeep of sorted lists, execution of arbitrary handler programs, the object |
| `Plugins.dfy` | the plugin loader's locks and host table, and the persisted registry |
| `WaId.dfy`, `LidIndex.dfy`, `SessionStore.dfy` | WhatsApp ids, the shared two-way lid index, and the sessions that learn over it |
| `Cidr.dfy`, `Ipv6.dfy` | three CIDR tests, the IPv4 block list, the IPv6 expander |
| `TemplateRender.dfy` | the placeholder pattern and its replacement |
| `Chats.dfy` | the delivery-status merge and the optimistic message list of the dashboard |
| `TemplateMigration.dfy` | the deduplicating UPDATE before a unique index |
| `Support.dfy`, `Text.dfy` | options, powers of two, and the string operations used above |

Objects the gateway changes in place are classes; each method is proved against a step function, and the
theorems quantify over runs of those step functions. `dafny verify dfyconfig.toml` checks everything.

Where code and comments disagree the model follows the code:

- "usageCount stays accurate" (src/modules/auth/auth.service.ts:227): under overlap only the upper bound
  always holds; `UsageIsExactExactlyWhenClean` gives the exact condition for every run.
- "keep the newest N" (src/engine/adapters/baileys-message-store.service.ts:103): a put that lands after a
  later one of the same message can empty the store; `LandingIsSafeExactly` gives the exact condition.
- "byte-identical" (src/engine/identity/wa-id.value.ts:10): not for channels and broadcast lists that are
  not neutrally written; `ValueObjectAgrees` gives the exact condition.
- "the new name cannot collide" (src/database/migrations/1781100000000-AddTemplateNameUnique.ts:9): it can;
  `UniqueExactlyWithoutCollision` gives the exact condition.
- An acknowledgement of a failure can be ignored and later take effect when the current status is unknown;
  `ReplayIsNoOp` gives the exact condition. It takes a status outside the five of
  src/engine/interfaces/whatsapp-engine.interface.ts:295, which no sender in the repository produces.
- A registration made while a chain of its event runs shows in that chain, and so may an unregistration;
  `OneEditShowsExactly` says exactly when.
- An `initialize` that overlaps a pending logout, or two overlapping disables, break the invariants their
  modules keep otherwise; `InitializeOverlappingLogout` and `OverlappingDisables` say exactly when.

Assumptions: an ended socket emits at most the close of its own end, and a logout that resolves has ended
its socket; the upserts of one message land safely, for which landing in the order of their stamps is
enough; one plugin has at most one disable in flight; placeholder ids of the chat view are new, start with
`temp_`, and no WhatsApp id does, and a loaded history repeats no id; an UPDATE evaluates its subqueries on
the table as it was before the statement; template ids are unique and 36 characters long.

## Model

| member | source | states |
|---|---|---|
| Connection.RunsAreSafe | src/engine/adapters/baileys.adapter.ts:140-219 | In every interleaving of stops, timers, socket events and the awaits of connectInner (no initialize over a pending logout): every socket but the current one has been ended, the recorded timer is the only live one and there is none while intentionalClose, and at most five attempts are counted |
| Connection.StopIsFinal | src/engine/adapters/baileys.adapter.ts:171-175 | Once intentionalClose is set, whichever await a connect is parked at, no socket is created and no timer armed until initialize |
| Connection.StoppedAdapterStaysDown | src/engine/adapters/baileys.adapter.ts:355-398 | After disconnect or destroy every socket is ended, none appears, no timer is live and ensureReady keeps failing |
| Connection.BackoffIsBounded | src/engine/adapters/baileys.adapter.ts:319-340 | In every run a live timer waits 1000 * 2^(n - 1) ms, n the attempt it was armed at, the last one armed; the delays armed between two open events belong to rising attempt numbers, total at most 31000 ms and never reach the 30000 ms cap |
| Connection.RecoverableCloseArms | src/engine/adapters/baileys.adapter.ts:314-340 | A recoverable close counts one attempt and, unless a timer is pending, arms one for exactly 1000 * 2^(attempts before) ms; the status stays |
| Connection.InitializeOverlappingLogout | src/engine/adapters/baileys.adapter.ts:367-383 | Exactly when an initialize during a pending logout can leave an open socket nobody holds |
| Connection.TeardownIsSilent | src/engine/adapters/baileys.adapter.ts:177-199 | Replacing the previous socket ends it and counts no attempt, arms no timer and changes no status |
| Connection.DropIsRepaired | src/engine/adapters/baileys.adapter.ts:314-340 | A recoverable drop leads, through its timer and if nothing interrupts the reconnect, to exactly one fresh current socket |
| Connection.DropsAreNeverForgotten | src/engine/adapters/baileys.adapter.ts:314-340 | In every interleaving without a stop, a failing connect or a terminal close, an unstopped session always has an open socket, a connect under way or a timer |
| Connection.OpenMakesReady | src/engine/adapters/baileys.adapter.ts:288-296 | When the current socket opens, ensureReady passes and the attempts start over |
| Connection.StopStops | src/engine/adapters/baileys.adapter.ts:355-365 | A stop raises the flag, ends and lets go of the socket, clears the timer and leaves the status DISCONNECTED |
| Connection.LogoutStops | src/engine/adapters/baileys.adapter.ts:367-374 | A logout raises the flag and clears the timer at once; socket and status wait for its answer |
| Connection.StopIsSeen | src/engine/adapters/baileys.adapter.ts:171-175 | A stop met at the end of the awaits, or by the timer, lets nothing more happen |
| Connection.EndIsAClose | src/engine/adapters/baileys.adapter.ts:177-199 | Ending an open, attached socket is a recoverable close; any other end is silent |
| Connection.RendersAreCounted | src/engine/adapters/baileys.adapter.ts:278-282 | A QR rendering is put on when its code arrives and taken off when it is done |
| Connection.RejectionsAreCounted | src/engine/adapters/baileys.adapter.ts:143-163 | A rejected connect is put on when connect returns and taken off when its catch has run |
| Connection.StatusFollowsEvents | src/engine/adapters/baileys.adapter.ts:284-296 | Which status each step other than a close leaves |
| Connection.InitializeConnects | src/engine/adapters/baileys.adapter.ts:140-163 | initialize lowers the stop flag and, unless one is under way, starts a connect |
| Connection.FailedConnectIsReported | src/engine/adapters/baileys.adapter.ts:145-163 | A connect that fails at any await, or in making the socket, releases the flag and ends in FAILED |
| Connection.LogoutEndsSocket | src/engine/adapters/baileys.adapter.ts:373-382 | A resolved logout ends the socket it captured, a failed one the current socket; both let go of it |
| Connection.TerminalCloseIsFinalExactly | src/engine/adapters/baileys.adapter.ts:307-324 | A logged-out close, and the close after five attempts, end the session until initialize if and only if the session is stopped or no connect is under way and no timer pending |
| Connection.BaileysAdapter.InitializeSession | src/engine/adapters/baileys.adapter.ts:140-150 | initialize up to its await: the stop flag is lowered and a connect begun |
| Connection.BaileysAdapter.OpenConnection | src/engine/adapters/baileys.adapter.ts:152-166 | connect does nothing while one is in flight, else takes the flag and starts initialising |
| Connection.BaileysAdapter.ConnectInnerTail | src/engine/adapters/baileys.adapter.ts:171-219 | connectInner after its last await: bail when stopped, else detach and end the old socket and make one |
| Connection.BaileysAdapter.ConnectFinally | src/engine/adapters/baileys.adapter.ts:158-163 | The flag is released on every exit and a failure reaches its caller |
| Connection.BaileysAdapter.OnSocketUpdate | src/engine/adapters/baileys.adapter.ts:222 | A socket event reaches the handler; a close has ended its socket |
| Connection.BaileysAdapter.HandleConnectionUpdate | src/engine/adapters/baileys.adapter.ts:271-342 | All branches of the connection handler on the adapter fields |
| Connection.BaileysAdapter.ReconnectTimerFires | src/engine/adapters/baileys.adapter.ts:331-340 | The timer clears itself and reconnects unless stopped |
| Connection.BaileysAdapter.DisconnectSession | src/engine/adapters/baileys.adapter.ts:355-365 | Stop: flag, timer, socket, status |
| Connection.BaileysAdapter.LogoutStart | src/engine/adapters/baileys.adapter.ts:367-374 | logout up to its await |
| Connection.BaileysAdapter.LogoutTail | src/engine/adapters/baileys.adapter.ts:374-382 | logout after its await: a failed one ends the current socket |
| Connection.BaileysAdapter.DestroySession | src/engine/adapters/baileys.adapter.ts:388-398 | Stop, as disconnect |
| MessageStore.StoreNeverUnderruns | src/engine/adapters/baileys-message-store.service.ts:52-88 | In every interleaving of the statements of concurrent puts whose upserts land safely, a session holds at least min(limit, distinct messages stored) |
| MessageStore.LandingIsSafeExactly | src/engine/adapters/baileys-message-store.service.ts:59-69 | An upsert may land without any later run of safe landings underrunning the session if and only if every pending cutoff keeps limit rows above it |
| MessageStore.InOrderLandsSafely | src/engine/adapters/baileys-message-store.service.ts:66 | An upsert that lands no older stamp over a newer one lands safely |
| MessageStore.ClockedRunsAreGuarded | src/engine/adapters/baileys-message-store.service.ts:59-66 | Under a monotone clock, puts of one message that do not overlap before they land always land safely |
| MessageStore.QuiescentStoreIsExact | src/engine/adapters/baileys-message-store.service.ts:104-123 | Once the session has no put in flight, and none of its own has thrown, it holds exactly min(limit, distinct messages stored) |
| MessageStore.DeletedRowsAreOutranked | src/engine/adapters/baileys-message-store.service.ts:104-123 | Whatever ran between find and delete, a removed row is outranked by at least limit rows |
| MessageStore.StatementsStepOnePut | src/engine/adapters/baileys-message-store.service.ts:52-88 | What each statement does with its put; no other put and, unless it says so, no row is touched |
| MessageStore.OtherSessionsUntouched | src/engine/adapters/baileys-message-store.service.ts:117-122 | No put changes another session's rows |
| MessageStore.LateLandingEmptiesStore | src/engine/adapters/baileys-message-store.service.ts:59-69 | A run from the empty store, stamped in clock order, that ends with nothing left of two stored messages because a put lands late |
| MessageStore.UpsertStoresRow | src/engine/adapters/baileys-message-store.service.ts:59-69 | An upsert stores the payload and the stamp; a new row takes the new id, an old one keeps its own; other rows stay |
| MessageStore.RowsHoldLastLanding | src/engine/adapters/baileys-message-store.service.ts:52-88 | In every interleaving a row holds the payload and the stamp of the last put of its message to land |
| MessageStore.CutoffIsDefined | src/engine/adapters/baileys-message-store.service.ts:106-112 | The descending skip-limit query has exactly one answer |
| MessageStore.CutExactlyTheOutranked | src/engine/adapters/baileys-message-store.service.ts:117-122 | The delete removes a row exactly when limit rows rank above it |
| MessageStore.BaileysMessageStore.UpsertRow | src/engine/adapters/baileys-message-store.service.ts:65-86 | Upsert by (session, message id); a missing parent drops the write and warns once per session |
| MessageStore.BaileysMessageStore.FindCutoff | src/engine/adapters/baileys-message-store.service.ts:105-115 | Answers the cutoff query |
| MessageStore.BaileysMessageStore.EnforceLimit | src/engine/adapters/baileys-message-store.service.ts:104-123 | Uninterrupted, exactly the newest limit rows of the session stay |
| MessageStore.BaileysMessageStore.PutMessage | src/engine/adapters/baileys-message-store.service.ts:52-88 | An uninterrupted put stores the message, then keeps exactly the newest limit rows |
| MessageStore.BaileysMessageStore.GetMessage | src/engine/adapters/baileys-message-store.service.ts:90-97 | The stored text of a message, or nothing |
| MessageStore.BaileysMessageStore.ClearSession | src/engine/adapters/baileys-message-store.service.ts:99-101 | Removes the session's rows and no others |
| KeyUsage.UsageIsNeverOvercounted | src/modules/auth/auth.service.ts:168-245 | In every interleaving of validations, updates, revocations, deletions and restarts, each stored, held or in-flight usageCount plus the accumulator is at most the accepted validations |
| KeyUsage.EveryAdmittedCallCounts | src/modules/auth/auth.service.ts:226-244 | Serialised calls on an active key: count plus accumulator is the old count plus exactly the calls that passed the checks |
| KeyUsage.CreateAndRestart | src/modules/auth/auth.service.ts:122-132 | A new key starts active, unused and without a stamp; a restart forgets only what is in memory |
| KeyUsage.SerialisedUsageIsExact | src/modules/auth/auth.service.ts:226-244 | Serialised: database count plus accumulator equals the accepted validations, each answer carries the true count, and usage writes are at least 60000 ms apart |
| KeyUsage.CallWritesExactlyWhenDue | src/modules/auth/auth.service.ts:188-245 | A call is refused without a trace exactly for a missing or inactive key or a failed check; an accepted one writes exactly if the row has no stamp or one at least 60000 ms old, then with the full count, its stamp and an empty accumulator |
| KeyUsage.ResumeWritesExactlyWhenDue | src/modules/auth/auth.service.ts:226-242 | The same for a validation that resumes among others |
| KeyUsage.ReadsAndWritesAreWholeRows | src/modules/auth/auth.service.ts:156-190 | A read takes the row as stored; a write puts the whole row back, or removes it |
| KeyUsage.OtherTasksResume | src/modules/auth/auth.service.ts:156-186 | An update writes the row it read, a revocation the same row inactive; revocation and deletion drop the pending increments |
| KeyUsage.ServeIsAnUninterruptedRun | src/modules/auth/auth.service.ts:188-245 | A serialised call is the interleaved machine's read, resume and write with nothing in between |
| KeyUsage.UsageIsExactExactlyWhenClean | src/modules/auth/auth.service.ts:156-245 | In every interleaving of any number of validations and updates of a key, stored, in-flight and pending increments add up to the accepted validations if and only if, along the reads and writes that produced the stored row, no flush landed between a call's read and its write |
| KeyUsage.StoredIsSentExactlyWhenClean | src/modules/auth/auth.service.ts:156-245 | The same for the stored count and the increments sent to the database, with revocations and restarts as well |
| KeyUsage.ValidationsAreExactExactlyWhenApart | src/modules/auth/auth.service.ts:226-242 | For validations alone: the count stays accurate if and only if no flush lands between another flushing call's read and its write |
| KeyUsage.StaleUpdateLosesFlush | src/modules/auth/auth.service.ts:156-166 | One flush is enough to lose a count: an update that read before it writes its stale row after it |
| KeyUsage.OverlapIsExactUnlessBothFlush | src/modules/auth/auth.service.ts:226-242 | The instance of two validations that read the same row: exact if and only if at most one of them flushes |
| KeyUsage.AuthService.ValidateApiKey | src/modules/auth/auth.service.ts:188-245 | One validation: refused without a trace, or counted and written at most once per window |
| KeyUsage.AuthService.Revoke | src/modules/auth/auth.service.ts:179-186 | The row is deactivated, the accumulator dropped, and every later validation refused |
| KeyUsage.AuthService.Delete | src/modules/auth/auth.service.ts:168-177 | Row and accumulator are gone |
| HookRegistry.StableSortIsStable | src/core/hooks/hook-manager.service.ts:36 | The sort orders by priority and keeps the order of equals |
| HookRegistry.StableSortIsUnique | src/core/hooks/hook-manager.service.ts:36 | Those two facts determine the list: there is only one stable sort |
| HookRegistry.RegisterAddsInOrder | src/core/hooks/hook-manager.service.ts:19-46 | Registering adds exactly the new registration, behind everything of at most its priority, and touches no other event |
| HookRegistry.IdsAreTracked | src/core/hooks/hook-manager.service.ts:38-62 | Registering adds the id to its plugin's, unregistering drops the one it removed, other plugins keep theirs |
| HookRegistry.UnregisterRemovesOne | src/core/hooks/hook-manager.service.ts:51-68 | Unregistering removes the first registration with that id and nothing else |
| HookRegistry.UnregisterPluginLeavesNothing | src/core/hooks/hook-manager.service.ts:73-84 | No registration of the plugin is left, even where ids collide within a millisecond; the others keep their places |
| HookRegistry.ListsStayInOrder | src/core/hooks/hook-manager.service.ts:19-84 | After any operations each list is sorted by priority with ties in registration order |
| HookChain.Execute | src/core/hooks/hook-manager.service.ts:90-106 | Total for every registry of handlers, mutually recursive ones included: an event in flight is not run again, and nesting is at most the number of events not in flight |
| HookChain.NestingIsBounded | src/core/hooks/hook-manager.service.ts:90-106 | At most 17 chains are ever nested |
| HookChain.RunChain | src/core/hooks/hook-manager.service.ts:108-154 | A chain ends, within the nesting bound, whatever its handlers fire |
| HookChain.ExecuteIsALeftFold | src/core/hooks/hook-manager.service.ts:103-105 | For an event not in flight execute is the left fold of its handlers over the payload with the event in flight; without handlers the payload comes back unchanged |
| HookChain.StopReachesCaller | src/core/hooks/hook-manager.service.ts:139-142 | A stop at whichever handler reaches the caller with the data as it was then |
| HookChain.SoleStopReachesCaller | src/core/hooks/hook-manager.service.ts:135-142 | A handler that returns a stop with data: the caller gets both |
| HookChain.FiringHandlerSeesOutcome | src/core/hooks/hook-manager.service.ts:96-105 | A handler that fires an event goes on with the outcome execute has for it |
| HookChain.NestingIsCounted | src/core/hooks/hook-manager.service.ts:103-105 | A chain counts for one, a chain fired from it for one more |
| HookChain.RestDepthCounts | src/core/hooks/hook-manager.service.ts:128-131 | The handlers after the first count for nesting as well |
| HookChain.LaterDepthCounts | src/core/hooks/hook-manager.service.ts:128-131 | So does what a handler fires later |
| HookChain.ChainIsALeftFold | src/core/hooks/hook-manager.service.ts:119-153 | A chain is the left fold of its handlers over the payload |
| HookChain.ChainSplits | src/core/hooks/hook-manager.service.ts:128-153 | A chain splits anywhere: the second part runs on the first part's data unless that stopped |
| HookChain.SucceedingHandlerPassesData | src/core/hooks/hook-manager.service.ts:128-137 | A handler that succeeds hands its data, or the data it was given, to the next |
| HookChain.FailingHandlerIsTransparent | src/core/hooks/hook-manager.service.ts:133-150 | A handler that throws or reports an error leaves the chain as if it were not registered |
| HookChain.StoppingHandlerEndsTheChain | src/core/hooks/hook-manager.service.ts:139-142 | A stop hides every later handler and leaves its own data, unless it reports an error |
| HookManagerService.EditsShowExactly | src/core/hooks/hook-manager.service.ts:128-131 | Edits of the lists while one handler is awaited do not show in the running chain if and only if the list behind the cursor is as it was |
| HookManagerService.OneEditShowsExactly | src/core/hooks/hook-manager.service.ts:33-56 | A registration for the running event always shows; an unregistration shows when it finds its id, unless the last handler is awaited; unregistering a plugin never does |
| HookManagerService.PluginRemovalsNeverShow | src/core/hooks/hook-manager.service.ts:73-80 | Unregistering plugins, however often and during whichever awaits, does not alter the running chain |
| HookManagerService.ResultsAreTheChain | src/core/hooks/hook-manager.service.ts:128-153 | The loop over handler results computes the chain of handler programs |
| HookManagerService.HookManager.RegisterHook | src/core/hooks/hook-manager.service.ts:19-46 | The fields change as the abstract registry does; the event keeps its list object |
| HookManagerService.HookManager.UnregisterHook | src/core/hooks/hook-manager.service.ts:51-68 | The fields change as the abstract registry does, in place |
| HookManagerService.HookManager.UnregisterPluginHooks | src/core/hooks/hook-manager.service.ts:73-84 | Lists are replaced, never edited: a list held elsewhere is unchanged |
| HookManagerService.HookManager.RunHandlers | src/core/hooks/hook-manager.service.ts:108-154 | While each handler is awaited other tasks register and unregister; the result is the fold over the registrations the walk then visits |
| Plugins.RunsAreSafe | src/core/plugins/plugin-loader.service.ts:259-370 | Without overlapping disables: at most one enable lifecycle runs and the lock is held exactly meanwhile; enabled means a live host in the table; a host means enabled or being enabled; runtime status, config, sessions and overrides equal the registry entry |
| Plugins.AtMostOneEngine | src/core/plugins/plugin-loader.service.ts:269-279 | Two ENGINE plugins are never both ENABLED |
| Plugins.RestartKeepsChoices | src/core/plugins/plugin-loader.service.ts:196-257 | A restart restores config, sessions and session overrides and resets both statuses to INSTALLED |
| Plugins.LoadTakesPersisted | src/core/plugins/plugin-loader.service.ts:196-257 | Loading takes the persisted choices, or none, and writes them back as INSTALLED |
| Plugins.BuiltInMergesEnvironment | src/core/plugins/plugin-loader.service.ts:849-867 | A built-in runs on the environment's config under the operator's; its sessions are not reloaded |
| Plugins.EnableStarts | src/core/plugins/plugin-loader.service.ts:281-295 | The lock is taken at once; a user plugin gets a fresh worker in the table, unless its path is bad |
| Plugins.LifecycleAdvances | src/core/plugins/plugin-loader.service.ts:720-723 | load, onLoad and onEnable follow one another; after the last the enable has succeeded |
| Plugins.FailedEnableCleansUp | src/core/plugins/plugin-loader.service.ts:724-728 | An enable that fails in the worker ends in ERROR on both sides, unlocked, the worker terminated and forgotten |
| Plugins.FailedBuiltInEnable | src/core/plugins/plugin-loader.service.ts:308-317 | A failing in-process enable ends in ERROR on both sides, unlocked |
| Plugins.EnableSettles | src/core/plugins/plugin-loader.service.ts:297-317 | The outcome is put on both sides and the lock released |
| Plugins.DisableTerminates | src/core/plugins/plugin-loader.service.ts:336-345 | The worker is terminated however onDisable ends |
| Plugins.DisableSettles | src/core/plugins/plugin-loader.service.ts:346-369 | Dropped from the table and DISABLED on both sides; a failing in-process onDisable turns only the runtime to ERROR |
| Plugins.OverlappingDisables | src/core/plugins/plugin-loader.service.ts:320-347 | Starting a disable can never be followed by an enabled plugin without a host if and only if no other disable is in flight |
| Plugins.ConfigUpdateMerges | src/core/plugins/plugin-loader.service.ts:438-441 | An update wins on its keys and keeps the others, in the runtime and in the registry |
| Plugins.SessionsAreStored | src/core/plugins/plugin-loader.service.ts:476-477 | The sessions set are the sessions stored, on both sides, and nothing else changes |
| Plugins.OverrideTakesEffect | src/core/plugins/plugin-loader.service.ts:502-509 | An override replaces that session's, an empty one removes it, other sessions keep theirs, on both sides |
| Plugins.FileRoundTrips | src/core/plugins/plugin-storage.service.ts:45-83 | Loading the written entries gives the registry back |
| Plugins.RestartThroughFile | src/core/plugins/plugin-loader.service.ts:196-257 | The restart also restores them through the written file |
| Plugins.PluginStorage.SaveRegistry | src/core/plugins/plugin-storage.service.ts:62-83 | Every entry is written once; a disk error is swallowed |
| Plugins.PluginStorage.LoadRegistry | src/core/plugins/plugin-storage.service.ts:45-60 | After a successful save a readable file gives the registry back; an unreadable one leaves it empty |
| Plugins.PluginStorage.SetPluginEntry | src/core/plugins/plugin-storage.service.ts:93-97 | The entry is replaced and saved |
| Plugins.PluginStorage.SetPluginStatus | src/core/plugins/plugin-storage.service.ts:117-124 | Changes the status of an existing entry and nothing else |
| Plugins.PluginStorage.SetPluginConfig | src/core/plugins/plugin-storage.service.ts:135-142 | Changes the config of an existing entry and nothing else |
| Plugins.PluginStorage.SetPluginSessions | src/core/plugins/plugin-storage.service.ts:149-156 | Changes the sessions of an existing entry and nothing else |
| Plugins.PluginStorage.SetPluginSessionConfig | src/core/plugins/plugin-storage.service.ts:163-170 | Changes the overrides of an existing entry and nothing else |
| Plugins.PluginLoader.LoadPlugin | src/core/plugins/plugin-loader.service.ts:190-225 | Loading: refused when loaded, else INSTALLED with the persisted choices on both sides |
| Plugins.PluginLoader.EnablePlugin | src/core/plugins/plugin-loader.service.ts:259-290 | enablePlugin up to its first await: every refusal, the lock, the worker |
| Plugins.PluginLoader.EnableAwaitSettles | src/core/plugins/plugin-loader.service.ts:719-728 | A lifecycle call settles; a failure drops the host and terminates the worker |
| Plugins.PluginLoader.EnablePluginTail | src/core/plugins/plugin-loader.service.ts:297-317 | Outcome on both sides, lock released |
| Plugins.PluginLoader.DisablePlugin | src/core/plugins/plugin-loader.service.ts:320-331 | disablePlugin up to its first await |
| Plugins.PluginLoader.DisableAwaitSettles | src/core/plugins/plugin-loader.service.ts:336-345 | The worker is told to terminate however onDisable ends |
| Plugins.PluginLoader.DisablePluginTail | src/core/plugins/plugin-loader.service.ts:346-369 | Host dropped, DISABLED on both sides; a failed in-process disable marks only the runtime |
| Plugins.PluginLoader.UpdatePluginConfig | src/core/plugins/plugin-loader.service.ts:432-441 | Config merged and persisted |
| Plugins.PluginLoader.SetPluginSessions | src/core/plugins/plugin-loader.service.ts:467-485 | Sessions set and persisted for session-scoped plugins only |
| Plugins.PluginLoader.SetPluginSessionConfig | src/core/plugins/plugin-loader.service.ts:493-517 | Override set, or removed when empty, and persisted |
| WaIdentity.ParseBuilt | src/engine/identity/wa-id.ts:47-71 | Parsing `<u>@<domain>` gives the kind of the domain and the user part back, without a device |
| WaIdentity.ParseWithDevice | src/engine/identity/wa-id.ts:57-70 | A device suffix is cut off the user part and kept apart |
| WaIdentity.KnownDomains | src/engine/identity/wa-id.ts:59-69 | Which domain names which kind; any other is unknown |
| WaIdentity.OthersPassThrough | src/engine/identity/wa-id.ts:98-100 | An id of unknown kind passes through unchanged; only user ids have an engine form of their own |
| WaIdentity.NeutralHasNoDevice | src/engine/identity/wa-id.ts:78-101 | On recognised kinds the neutral form has no device suffix and never the s.whatsapp.net domain |
| WaIdentity.IdempotentExactlyWhenSettled | src/engine/identity/wa-id.ts:73-101 | For every resolver and id, reducing twice is reducing once if and only if a resolved lid has a plain phone and an unresolved one stays unresolved once stripped of its device |
| WaIdentity.NeutralReadsBack | src/engine/identity/wa-id.ts:78-101 | Read back, the neutral form names the same kind and user part, or the resolved phone; only a broadcast list called "status" becomes the status id |
| WaIdentity.UserIdIsFixed | src/engine/identity/wa-id.ts:84-85 | `<p>@c.us` is a fixed point if and only if p is a plain user part |
| WaIdentity.DialectsUndoEachOther | src/engine/adapters/baileys-session-store.ts:163-174 | toEngineJid and toNeutralJid undo each other on plain user ids |
| WaIdentity.ValueObjectAgrees | src/engine/identity/wa-id.value.ts:26-74 | WaId serialises to toNeutralJid's string, for channels and broadcast lists if and only if the id is neutrally written |
| WaIdentity.TrimmedLowerCaseAgrees | src/engine/identity/wa-id.value.ts:26-74 | In particular for every trimmed lower-case id with one @ |
| WaIdentity.UpperCaseChannelDiffers | src/engine/identity/wa-id.value.ts:66-71 | Concrete id: an upper-case channel id is serialised differently |
| LidIndex.IndexIsExact | src/engine/identity/lid-mapping-store.service.ts:53-88 | In every reachable state lidsForPhone is exactly the inverse of the cached phones, and a lookup gives the latest remembered phone or the loaded row |
| LidIndex.StepsOfTheTable | src/engine/identity/lid-mapping-store.service.ts:62-74 | A call answers at once and sends its row only if it is news; writes land in order |
| LidIndex.LoadingIsOrderFree | src/engine/identity/lid-mapping-store.service.ts:39-51 | Loading rebuilds the table from its rows in any order |
| LidIndex.RestartRebuilds | src/engine/identity/lid-mapping-store.service.ts:62-74 | After in-order writes have landed, a restart rebuilds both lookups |
| LidIndex.RestartKeepsLanded | src/engine/identity/lid-mapping-store.service.ts:66-74 | Where some writes failed, a restart restores every lid whose latest write landed |
| LidIndex.LidMappingStoreService.OnModuleInit | src/engine/identity/lid-mapping-store.service.ts:39-51 | The rows are indexed in order; an unreadable table leaves the cache empty |
| LidIndex.LidMappingStoreService.GetCached | src/engine/identity/lid-mapping-store.service.ts:53-55 | The cached phone: digits, a negative, or never seen |
| LidIndex.LidMappingStoreService.FindLids | src/engine/identity/lid-mapping-store.service.ts:57-60 | The lids of a phone |
| LidIndex.LidMappingStoreService.RememberPair | src/engine/identity/lid-mapping-store.service.ts:62-74 | Only an unseen or changed value is indexed and written |
| LidIndex.LidMappingStoreService.IndexPair | src/engine/identity/lid-mapping-store.service.ts:77-88 | Both maps change together; a stale reverse entry goes |
| SessionStore.EmittedIdsAreStable | src/engine/adapters/baileys-session-store.ts:159-161 | In every reachable state with digit phones, every session's toNeutralJid is idempotent and emits neither device nor engine domain |
| SessionStore.StrippedStaysUnresolved | src/engine/adapters/baileys-session-store.ts:137-150 | An unresolved `<lid>:<device>@lid` stays unresolved once stripped, because the lookup strips it too |
| SessionStore.UserIsItsOwnPhone | src/engine/adapters/baileys-session-store.ts:130-136 | A user id is its own phone; an id that is neither user nor lid has none |
| SessionStore.OwnPairResolves | src/engine/adapters/baileys-session-store.ts:137-143 | A session's own pair answers before contacts and the shared table, with or without a device |
| SessionStore.ContactPhoneResolves | src/engine/adapters/baileys-session-store.ts:144-147 | Without a pair a contact's phone number answers |
| SessionStore.NothingKnown | src/engine/adapters/baileys-session-store.ts:148-150 | With nothing of its own and nothing shared a session has no answer |
| SessionStore.ResetForgets | src/engine/adapters/baileys-session-store.ts:24-38 | A new store has nothing of its own; the shared index and other sessions keep theirs |
| SessionStore.SeparateUpdatesTeach | src/engine/adapters/baileys-session-store.ts:45-55 | A lid and a phone number arriving in separate updates of one contact make a pair, in either order |
| SessionStore.SharedPhoneResolves | src/engine/adapters/baileys-session-store.ts:148-150 | A session with no mapping of its own answers from the shared table |
| SessionStore.PairTravels | src/engine/adapters/baileys-session-store.ts:69-96 | A pair one session learns resolves in every session without its own mapping, through any later run that teaches nothing new about it |
| SessionStore.ListedContactIsFound | src/engine/adapters/baileys-session-store.ts:112-119 | A contact under `<u>@s.whatsapp.net` is listed under `<u>@c.us` and found from it, if and only if no contact with another name or number is stored under `<u>@c.us` |
| SessionStore.FindTriesBoth | src/engine/adapters/baileys-session-store.ts:116-119 | A lookup tries the id as given, then its engine form, and misses exactly when neither is stored |
| SessionStore.NumberIs | src/engine/adapters/baileys-session-store.ts:177 | The number shown: the phone number's user part, else that of an engine user id, else none |
| SessionStore.TwinIsFoundInstead | src/engine/adapters/baileys-session-store.ts:116-119 | Two stored contacts of one user with different names: the one found is not the one listed |
| SessionStore.UpsertKeepsKeyed | src/engine/adapters/baileys-session-store.ts:40-57 | Upserts keep every contact, each under its own id |
| SessionStore.KeepsTheNewest | src/engine/adapters/baileys-session-store.ts:98-110 | For each chat the store keeps the first of its newest messages |
| SessionStore.BaileysSessionStore.UpsertContacts | src/engine/adapters/baileys-session-store.ts:40-57 | Records merged in order; a merged lid and phone are learned |
| SessionStore.BaileysSessionStore.AddLidMappings | src/engine/adapters/baileys-session-store.ts:69-76 | Complete pairs are learned in order |
| SessionStore.BaileysSessionStore.KeepPair | src/engine/adapters/baileys-session-store.ts:93-96 | A learned pair is written through to the shared table |
| SessionStore.BaileysSessionStore.RecordMessage | src/engine/adapters/baileys-session-store.ts:98-110 | A message replaces an older one only |
| Text.ParseIntReads | src/modules/auth/auth.service.ts:277-302 | parseInt skips leading space, reads a sign and the digits up to anything else; without digits it is NaN |
| Text.DecimalRoundTrips | src/common/security/ssrf-guard.ts:45-47 | A number written in decimal digits is read back |
| Text.OctetsAreBytes | src/common/utils/ip.ts:65-68 | Every byte is written as an octet; no larger number is, nor more than three digits, nor none |
| Ipv6.DottedIsFourNumbers | src/common/security/ssrf-guard.ts:89 | The pattern of a dotted quad is exactly four numbers of one to three digits with dots between them |
| Text.TrimTakesOffWhite | src/engine/identity/wa-id.ts:49 | Trimming takes white space off both ends and nothing else |
| Cidr.TestsAgree | src/common/security/ssrf-guard.ts:49-53 | The shift-mask, the unsigned-mask and the ~(2**n - 1) test all decide equality of address / 2^(32 - bits), for all addresses and bits 0..32 |
| Cidr.QuadIsWord | src/modules/auth/auth.service.ts:297-302 | On a dotted quad the shift form and the multiply form read the same 32-bit number |
| Cidr.Ipv4ToInt | src/common/utils/ip.ts:60-71 | The checked loop: a number exactly on dotted quads, null otherwise |
| Cidr.IpMatchesCidr | src/common/utils/ip.ts:88-97 | With a prefix length read: true exactly for two dotted quads in one block of that length |
| Cidr.IpMatches | src/common/utils/ip.ts:78-97 | Exact address, or block membership when the target has a slash; the length is what Number() reads after the slash, malformed input gives false |
| Cidr.MappedIsTheSame | src/common/utils/ip.ts:6-10 | An IPv4-mapped address is read as the address it embeds |
| Cidr.OnlyMappedIsRewritten | src/common/utils/ip.ts:6-10 | A mapped address is rewritten to what follows its prefix; any other text stays as it is |
| Cidr.PlainAddressesMatchExactly | src/common/utils/ip.ts:78-84 | Two addresses that are not mapped, the target without a slash, match exactly when their trimmed texts are equal |
| Cidr.BlockEnds | src/common/utils/ip.ts:86-97 | No bits match every quad, all bits the same number, other lengths none |
| Cidr.ExactEntryAdmits | src/modules/auth/auth.service.ts:254-264 | An entry without a slash admits exactly the same text |
| Cidr.NotANumber | src/modules/auth/auth.service.ts:297-302 | A last part that is no number makes the whole read as 0; an earlier one drops what came before it |
| Cidr.AllowListIsCidr | src/modules/auth/auth.service.ts:274-303 | For all texts, the API-key allow list decides whether the numbers it reads share a block of the length it reads; on dotted quads that is CIDR membership; text without four parts reads as 0 |
| Cidr.IsIpAllowed | src/modules/auth/auth.service.ts:251-269 | True exactly when some entry of the list, as text, admits the address |
| Cidr.BlockedIsElevenIntervals | src/common/security/ssrf-guard.ts:56-68 | IPv4 blocking is membership in a union of eleven intervals |
| Cidr.HextetsMakeWord | src/common/security/ssrf-guard.ts:77-79 | The four octets stand for the number the two groups make |
| Ipv6.FormsExpand | src/common/security/ssrf-guard.ts:86-106 | expandIPv6 undoes every legal text form: leading zeros, one :: run anywhere, dotted tail |
| Ipv6.ExpandedIsEightGroups | src/common/security/ssrf-guard.ts:103-105 | Any result has exactly eight groups below 65536 |
| Ipv6.AcceptsExactlyForms | src/common/security/ssrf-guard.ts:86-106 | The accepted texts are the legal forms, with their meanings, exactly where a closing quad follows a colon |
| Ipv6.GluedQuadIsAccepted | src/common/security/ssrf-guard.ts:89-96 | A quad glued to a hexadecimal group is accepted although no legal form writes it |
| TemplateRender.DoubleMatchesGrammar | src/common/utils/template-render.ts:16 | The double-brace branch matches exactly the texts of the pattern, in one way |
| TemplateRender.SingleMatchesGrammar | src/common/utils/template-render.ts:16 | Likewise the single-brace branch |
| TemplateRender.PartitionIsUnique | src/common/utils/template-render.ts:12-16 | The body has exactly one partition into literals and leftmost, double-brace-first matches |
| TemplateRender.RenderReplacesOnce | src/common/utils/template-render.ts:27-39 | The pieces spell out the body, and the result is each match replaced once, never rescanned |
| TemplateRender.MissingVariablesStayVisible | src/common/utils/template-render.ts:37-38 | With no key of the body bound the body comes back unchanged |
| TemplateRender.BoundPlaceholderIsReplaced | src/common/utils/template-render.ts:32-36 | A placeholder of either form whose key is bound renders as exactly the bound value |
| TemplateRender.RenderDistributes | src/common/utils/template-render.ts:32-39 | Rendering distributes over concatenation when the left part ends in a character no match can contain |
| Chats.RankNeverFalls | dashboard/src/pages/Chats.tsx:49-61 | A merge never lowers a status and never fails a delivered or read message |
| Chats.ReplayIsNoOp | dashboard/src/pages/Chats.tsx:49-61 | Replaying a seen acknowledgement is a no-op after any sequence, except exactly for a failure ignored while the status was unknown on a message now pending or sent |
| Chats.IgnoredFailureReturns | dashboard/src/pages/Chats.tsx:57-59 | Concrete sequence for that exception |
| Chats.KnownStaysKnown | dashboard/src/pages/Chats.tsx:49-61 | From a known status the status stays known, so the exception cannot arise |
| Chats.EntriesStayDistinct | dashboard/src/pages/Chats.tsx:546-558 | In every interleaving of send, echo, acknowledgement, response and failure no two entries share an id |
| Chats.EchoAppends | dashboard/src/pages/Chats.tsx:222-227 | An echo not yet shown is appended as sent with its own text; a shown one changes nothing |
| Chats.ResponseRenamesInPlace | dashboard/src/pages/Chats.tsx:513-576 | A send appends its placeholder; the response renames it in place, a failure marks it, both keeping the text |
| Chats.OneBubblePerMessage | dashboard/src/pages/Chats.tsx:222-227 | Once shown by echo or response, in either order, a message has exactly one entry ever after, and its status is the merge of the acknowledgements it got |
| Chats.EarlyAcksAreLost | dashboard/src/pages/Chats.tsx:255-267 | An acknowledgement that comes before its message is lost; the status equals the merge of all of them exactly when what was lost is harmless to it |
| Chats.NothingLostExactlyWhenWeak | dashboard/src/pages/Chats.tsx:255-267 | Whatever follows, nothing is lost if and only if no early acknowledgement was delivered, read or failed |
| Chats.AcksAreMerged | dashboard/src/pages/Chats.tsx:255-267 | An entry's status is the merge of the acknowledgements addressed to it; nothing else of it changes |
| Chats.PlaceholderWaits | dashboard/src/pages/Chats.tsx:574-576 | Until its response a placeholder stays pending, or failed once its send has failed, whatever else happens |
| Chats.ResponseClearsPlaceholder | dashboard/src/pages/Chats.tsx:546-558 | A response leaves no placeholder behind |
| TemplateMigration.KeepsTheEarliest | src/database/migrations/1781100000000-AddTemplateNameUnique.ts:22-31 | A row is renamed exactly when another row of its group comes before it by (createdAt, id) |
| TemplateMigration.OnlyNamesChange | src/database/migrations/1781100000000-AddTemplateNameUnique.ts:24-31 | No row is dropped, no other column changes; a new name is the first 59 characters, "-dup-" and the id, within 100 characters |
| TemplateMigration.UniqueExactlyWithoutCollision | src/database/migrations/1781100000000-AddTemplateNameUnique.ts:7-10 | (sessionId, name) is unique afterwards if and only if no kept name is already a new name in its session |
| TemplateMigration.UniqueWithoutLookalikes | src/database/migrations/1781100000000-AddTemplateNameUnique.ts:12-13 | In particular when no name ends in another row's -dup-<id>; a second run then changes nothing |
| TemplateMigration.LookalikeCollides | src/database/migrations/1781100000000-AddTemplateNameUnique.ts:9 | Concrete shape: the new name can collide |
| TemplateMigration.UniqueIsFixed | src/database/migrations/1781100000000-AddTemplateNameUnique.ts:13 | On unique names the UPDATE changes nothing |
| TemplateMigration.Templates.Up | src/database/migrations/1781100000000-AddTemplateNameUnique.ts:19-36 | The whole migration on the table, and when its unique index can be created |

## Left out

- HTTP controllers, the Redis client, media and message sending, QR rendering, logging and callbacks: plumbing around the modelled logic; QR rendering and auth loading appear as await points only.
- Listeners other than `connection.update`: the adapter's teardown does not detach all of them, so nothing is claimed about them.
- `force-destroy` and proxies of the adapter, and the phone number, push name and QR fields.
- `clearSession` interleaved with puts: `ClearSession` is modelled alone.
- Expiry, address and session checks of `validateApiKey`: one boolean per call; hashing is not modelled.
- Key ids, plugin ids, message row ids and config values are numbers: they are only compared and copied.
- Registry changes during nested executions: `HookChain.Execute` runs on a fixed registry; `RunHandlers` covers every concurrent register and unregister for a single chain.
- OneEditShowsExactly: states the if-and-only-if for the edits of one await; over several awaits a registration can be undone before the walk reaches it.
- Falsy errors, and the context object handlers may alias: a handler's error is a boolean and its data a value.
- JSON encoding of registry entries: the file is a sequence of entries.
- Unloading, uninstalling and hook subscriptions of plugins; the order of entries in the registry file; notifications of config changes.
- Built-in plugins: RunsAreSafe states no agreement with the registry for them, as they do not reload sessions and persist merged config.
- Letter case beyond ASCII: lower casing is modelled for A-Z.
- `fromUserInput` and `refersToSamePerson` of the identity object: short bodies with nothing across them.
- Chat summaries and display names of the session store: listing of chats and the name fallbacks; contacts keep name, lid, jid and phone number only.
- Sets inside the lid index are values: no one outside the service holds them.
- IpMatches: how Number() reads the text after the slash is a parameter; `resolveClientIp` is not modelled.
- Precision of numbers above 2^53 in overlong digit runs.
- DropIsRepaired: states the schedule in which nothing interrupts the reconnect; `DropsAreNeverForgotten` covers the others short of a stop or a failing connect.
- Address classification of IPv6 literals: only the expander and the octets it yields are modelled; the upper-case forms are lowered by the caller before expansion.
- String conversion of template values that are not strings, and inherited properties of the variable map.
- History loading, reactions and chat switches of the message list: they replace or decorate the list.
- Rolling the template table back when its unique index cannot be created; `down`.
