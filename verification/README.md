# Verified model of TronHawk's Core, Manager queue, injector and package rules

TronHawk's Core daemon decides which plugins run in which application. It persists that decision,
logs what happens, serves a framed local protocol, and performs network requests for plugins; a
Manager edits policies concurrently, and code injected into the application talks to Core. This
project models the parts of that system where state, failures and interleavings meet, and proves what
they keep, with Dafny 4.11. `dafny verify dfyconfig.toml` checks everything.

Each component has a module with its data, its operations (classes whose methods change their fields
where the source does) and functions that specify them; the results over whole runs are in a second
module where there are any.

| area | modules |
|---|---|
| shared | `Wrappers`, `Sequences`, `Utf8`, `Strings` |
| rotating, crash-tolerant log | `LogFormat`, `LogFiles`, `LogStore`, `LogHistory`, `LogRuns`, `LogPaging`, `LogMerge` |
| Manager policy write queue | `PolicyQueue`, `PolicyRuns` |
| Core control plane | `ControlPlane`, `ControlRuns`, `RendererGate`, `PluginCache`, `LogBudget`, `LaunchTokens` |
| network requests and domain whitelist | `Redirects`, `Domains` |
| protocol framing | `Framing` |
| injected client: sessions and logs | `Renewal`, `RenewalRuns`, `RenewalProgress`, `LogMessages`, `LogDelivery`, `LogDeliveryRuns` |
| merged application archive | `AsarTree`, `AsarMerge`, `AsarBytes` |
| plugin archives | `ArchiveNames`, `ArchivePasses`, `ArchiveWrites` |

What the environment decides is a parameter or a free choice, and every theorem holds for all of them:
whether a file operation succeeds and how many bytes of a write land, clock readings, the order in
which requests, replies and refreshes interleave, transport replies, URL parsing and joining, the
record encoding (only assumed to decode what it encoded and to contain no line feed) and the keyed
digest (only assumed to be 64 hexadecimal digits).

Where the code gives less than its documentation or tests suggest, the model follows the code: a
lemma states exactly when the stronger claim holds, and where the exception can be met in practice
another exhibits it. The conditions are `LogRuns.SequencesAreNotReused`,
`LogRuns.RestartIsNeededAfterAnyByte`, `ControlRuns.InstallKeepsACopyExactlyWhen` (met by
`ControlRuns.CrashBetweenRenamesLosesBoth`), `LogBudget.ResetForgetsExactlyWhen`,
`LogBudget.ResetAdmitsExactlyWhen` (`LogBudget.ResetCanAdmit`),
`LogBudget.ClosedPaceExactlyWhen` (`LogBudget.ClosedWindowMayHoldTwice`),
`Domains.StoredAgreesExactlyWhenTrimmed` and `Domains.StoredWidensExactlyWhen`
(`Domains.StoredCanWiden`), `Framing.ReadersDifferWithoutNewline`,
`LogMessages.BoundedIsWellFormedExactlyWhen` (`LogMessages.BoundingCanBreakAPair` and
`LogDeliveryRuns.SplitMessageIsRefused`), `LogDeliveryRuns.QueueExceedsExactlyWhen`
(`LogDeliveryRuns.QueueCanExceedCap`), `LogDeliveryRuns.EveryEventIsAccountedFor`
(`LogDeliveryRuns.LostCanBeAcknowledged`), `AsarMerge.FileIsKeptExactlyWhen`
(`AsarMerge.PackedFileCanBeReplaced`), `AsarBytes.ReadsBackExactlyWhen` and
`ArchiveWrites.ExtractsExactlyWhen` (`ArchiveWrites.FileBelowFileIsNotExtracted`).

## Model

| member | source | states |
|---|---|---|
| LogFormat.NormalizedIsStable | crates/core/src/log_store.rs:200-215 | an accepted message has no control character left and normalizing it again changes nothing |
| LogFormat.BuiltExactlyWhen | crates/core/src/log_store.rs:109-126 | a record is built for an event exactly when it has the event's stream, level, code, application and plugin, the next sequence and the clock, and for its message the event's with each control character blanked, in at most 1024 bytes |
| LogFormat.BuiltRecordIsValid | crates/core/src/log_store.rs:109-126 | a record built by an append passes `validate_record` exactly when its sequence and clock are not 0, its application is named and its code is permitted on its stream |
| LogFormat.ScanRendered | crates/core/src/log_store.rs:255-301 | scanning rendered valid lines followed by any text reads those lines back and then scans the text |
| LogFormat.ScanIsLongest | crates/core/src/log_store.rs:266-299 | recovery keeps the longest prefix of valid complete lines: no other split of the file into valid lines and a rest reaches further |
| LogFormat.RecoveryIsIdempotent | crates/core/src/log_store.rs:255-301 | a cut file is clean, scans to the same records, and leaves `repair_active_tail` nothing to cut |
| LogFormat.ReadAgreesWithScan | crates/core/src/log_store.rs:217-253 | the strict reader of queries succeeds exactly on files that recovery would not have to repair, up to a torn tail, and then returns the same records |
| LogFormat.AppendedWhole | crates/core/src/log_store.rs:127-143 | a complete encoded record appended to a clean file leaves it clean with that record added |
| LogFormat.AppendedTorn | crates/core/src/log_store.rs:136-139 | any newline-free piece of a record appended to a clean file changes no record and is only a torn tail |
| LogFiles.RotationNeverOverwrites | crates/core/src/log_store.rs:174-197 | before every rename of a rotation its target is free, at each intermediate point |
| LogStore.LogStore.Open | crates/core/src/log_store.rs:72-107 | startup leaves each file untouched or recovered whatever fails, cuts the active file when it succeeds, and continues after the largest recovered sequence |
| LogStore.LogStore.RecoverRecords | crates/core/src/log_store.rs:255-301 | one file's startup scan returns exactly the recovered records and leaves the recovered file, or fails with the file untouched or recovered |
| LogStore.LogStore.ScanFile | crates/core/src/log_store.rs:266-299 | the scanning loop computes the records and byte length of the longest valid prefix |
| LogStore.LogStore.RepairActiveTail | crates/core/src/log_store.rs:490-527 | the active file is cut after its last line feed |
| LogStore.LogStore.Rotate | crates/core/src/log_store.rs:174-197 | a rotation stopped by a failing operation leaves exactly the files of that many operations |
| LogStore.LogStore.Append | crates/core/src/log_store.rs:109-143 | an append is refused without effect, stops inside the rotation or the write leaving exactly that prefix, or is acknowledged: then the record returned, and appended whole to the files, holds the event's fields, the clock and the event's message with control characters blanked, and only then the sequence advances |
| LogStore.LogStore.Query | crates/core/src/log_store.rs:145-172 | a query returns the newest matching records of all five files, or fails when one is damaged |
| LogHistory.RotationKeepsRecords | crates/core/src/log_store.rs:174-197 | at every point of a rotation the files hold, in reading order, what they held before without the oldest archive |
| LogHistory.StepKeepsConsistent | crates/core/src/log_store.rs:72-197 | every write, rotation prefix, crash and restart keeps the records on disk a gapless end of the numbered history |
| LogHistory.ConsistentLogIsContiguous | crates/core/src/log_store.rs:72-143 | in a consistent state the files hold consecutive sequences ending just below the next one, the last 64-bit sequence being its own successor |
| LogHistory.EvictionIsWholeArchive | crates/core/src/log_store.rs:174-182 | a step removes nothing or exactly the oldest archive, and adds at most one record at the end |
| LogHistory.AliveAfterFailedWrite | crates/core/src/log_store.rs:133-142 | a store that kept running after a failed write is consistent exactly when nothing was written |
| LogRuns.StepIsSimulated | crates/core/src/log_store.rs:72-197 | every step on bytes is the corresponding step on whole records |
| LogRuns.LogIsContiguous | crates/core/src/log_store.rs:72-197 | in every run of appends, rotations, crashes and reopenings the files, read from archive 4 to the active one, hold consecutive sequences ending just below the next; the last 64-bit sequence is its own successor |
| LogRuns.AcknowledgedEventIsReadBack | crates/core/src/log_store.rs:109-143 | in every run the last record read back after an acknowledged append has the event's stream, level, code, application, plugin and time, and its message with each control character blanked |
| LogRuns.AcknowledgedRecordsSurvive | crates/core/src/log_store.rs:109-143 | an acknowledged record is still readable at any later point of the run, or all that is readable is newer, or has the last 64-bit sequence as it has |
| LogRuns.SequencesAreNotReused | crates/core/src/log_store.rs:101-141 | over any run, crashes and restarts included, acknowledged sequences never decrease, and two are equal exactly when they are the last 64-bit sequence |
| LogRuns.EvictionIsWholeArchive | crates/core/src/log_store.rs:174-197 | in every run each step drops nothing or exactly the oldest archive's records |
| LogRuns.FilesStayWithin | crates/core/src/log_store.rs:127-143 | at every point of every run each of the five files holds at most the configured number of bytes, or one record with its line feed if that is more |
| LogRuns.RestartIsNeededAfterAnyByte | crates/core/src/log_store.rs:136-141 | without a restart after a failed write the store is sound exactly when the write left no byte |
| LogRuns.GoingOnAfterFailedWrite | crates/core/src/log_store.rs:133-142 | what a reader would see if the store went on after a failed write and the next append were acknowledged: after a piece of a record that next record is not read back and every query fails; after a whole record both are read back with one sequence; after nothing all is well |
| LogPaging.AnswerIsPage | crates/core/src/log_store.rs:145-172 | on a sound disk every query succeeds; its answer lists, by strictly descending sequence, readable records of the asked application and stream from below the cursor, and every such record not listed is older than a full page |
| LogPaging.PagingDuringARun | crates/core/src/daemon.rs:571-602 | following `nextBeforeSequence` while appends, rotations and restarts go on lists records in strictly descending sequence, each of the asked application and stream and readable when its page was read; the pages with records are at most as many as the sequences issued when it began, so an empty page comes; and once it has come no such record readable from the first page to the last is missing |
| LogMerge.MergeShowsEachSequenceOnce | apps/manager/src/app.js:339-346 | a merge shows each sequence of either list once, by newest timestamp and then by newest sequence, and prefers the incoming event |
| PolicyQueue.ChangeMeans | apps/manager/src/app.js:403-409 | after an intent its own control shows what was chosen and every other what it did; the switch leaves the list of grants alone, a withheld grant leaves the others in order, a granted one is listed once and, if new, last |
| PolicyQueue.Manager.TogglePolicyControl | apps/manager/src/app.js:451-497 | a toggle queues its intent, extends `desired` and the pending overlay, and chains one write, unless that control is pending |
| PolicyQueue.Manager.BeginWrite | apps/manager/src/app.js:473-478 | a chained write sends its own intent applied to the last confirmed policy: that control as chosen, every other as confirmed |
| PolicyQueue.Manager.SettleWrite | apps/manager/src/app.js:480-492 | a settled write drops its intent, rebases `desired` on the confirmed policy and publishes it under a new revision |
| PolicyQueue.Manager.FinishRefresh | apps/manager/src/app.js:310-333 | a refresh replaces the snapshot, drops the queues it may replace and republishes the others, visiting them in any order |
| PolicyRuns.StepKeepsInv | apps/manager/src/app.js:451-497 | each toggle, begin, answer, settlement and refresh step keeps the scope's invariant, at this scope or elsewhere |
| PolicyRuns.NoLostUpdate | apps/manager/src/app.js:397-497 | in every interleaving Core's policy is the fold of exactly the accepted intents in order, at most one write of the scope is in flight, and `desired` is the fold of the unsettled intents |
| PolicyRuns.LastAcceptedIntentDecides | apps/manager/src/app.js:397-497 | in every interleaving each grant is in Core's policy, and its switch is on, exactly as the last accepted intent on that control chose, or as at the start if there was none; `desired` shows what the unsettled intent on a control chose, or what was last confirmed |
| PolicyRuns.DrainedQueueAgrees | apps/manager/src/app.js:483-496 | once all its writes settled, a queue and the display hold Core's policy |
| PolicyRuns.HeadCanMove | apps/manager/src/app.js:471-496 | a queue with unsettled intents can always take a step: it never stalls |
| PolicyRuns.EarlierSnapshotIsIgnored | apps/manager/src/app.js:310-328 | a snapshot requested before a toggle or settlement never replaces the policy shown for that scope |
| ControlPlane.CoreService.SetPolicy | crates/core/src/daemon.rs:1479-1562 | stored, in memory and on disk at once, exactly when the application exists, is above Level 0 if the plugin is to be enabled, the plugin is known, and the grants are distinct, requested and supported; then the grants are stored in order, the configuration and every other policy stay; refused or unwritten requests change nothing |
| ControlPlane.CoreService.SetDeveloperMode | crates/core/src/daemon.rs:1346-1378 | a change of mode keeps every registration, policy switch and configuration; switched off, every policy loses the unsafe grant and no other; asking for the current mode writes nothing |
| ControlPlane.CoreService.RegisterApplication | crates/core/src/daemon.rs:1110-1170 | refused exactly at a level above 2; otherwise stored with the given data, with the old policies at an unchanged level, with default ones for the same plugins at another, with none for a new application; other applications stay |
| ControlPlane.CoreService.SetPluginConfig | crates/core/src/daemon.rs:1603-1677 | stored exactly when the application exists and the plugin is known and declares every key; the whole configuration is replaced, the policy's switch and grants and all other policies stay |
| ControlPlane.CoreService.CommitStagedPlugin | crates/core/src/daemon.rs:1704-1763 | at each failure or crash point of an install: which copy is installed and which are hidden; once the state was written every policy of this plugin is the default one, and in every outcome no other policy, registration, copy or the developer mode differs |
| ControlPlane.CoreService.PublishStaged | crates/core/src/daemon.rs:1723-1763 | backing up the prior copy, publishing the staged one and cleaning up end at the given point with exactly the copies it leaves |
| ControlPlane.CoreService.RemovePlugin | crates/core/src/daemon.rs:1765-1801 | at each failure or crash point of a removal, a trash directory that stays included: which copies are left; once the state was written no application has a policy of this plugin, and in every outcome no other policy, registration, copy or the developer mode differs |
| ControlPlane.CoreService.Restart | crates/core/src/daemon.rs:2251-2270 | a restart loads the state file and removes the hidden copies it can, each on its own |
| ControlPlane.CapabilitiesAre | crates/core/src/daemon.rs:2122-2129 | which capability an application of each level may have: two at Level 1, five more at Level 2, the unsafe one there in developer mode only |
| ControlRuns.RequestKeepsStateInv | crates/core/src/daemon.rs:1110-1562 | every accepted request keeps stored grants duplicate-free and within level and mode |
| ControlRuns.StepKeepsInv | crates/core/src/daemon.rs:1110-1801 | every request, install, removal, crash and restart keeps memory equal to disk, grants supported and every grant timely |
| ControlRuns.StoredGrantsAreSupported | crates/core/src/daemon.rs:1110-1562 | in every run memory equals the state file, grants are duplicate-free and within level and mode, enabled implies a level above 0, and the plan's support-level filter changes nothing |
| ControlRuns.GrantsFollowPublication | crates/core/src/daemon.rs:1679-1801 | in every run a stored policy that enables or grants anything has the switch last chosen for it and exactly the grants last chosen, in their order, without the unsafe one if the developer mode was switched off since; an installed copy was published no later than that choice |
| ControlRuns.HistoryIsFaithful | crates/core/src/daemon.rs:1479-1763 | a choice is recorded by exactly the policy requests that are stored, as made, marked revoked by exactly the steps that switch the developer mode off, and a publication by exactly the installs that put that copy in place |
| ControlRuns.ChosenPolicyStays | crates/core/src/daemon.rs:1110-1801 | only a policy request, a change of level, a removal or an install of that plugin or application ends a stored policy; every other step, crash or restart keeps its switch and grants, but for the unsafe grant when the developer mode is switched off |
| ControlRuns.InstallKeepsACopyExactlyWhen | crates/core/src/daemon.rs:1723-1763 | after an attempt and a sweep some copy is installed exactly when the new one was published or the old one stayed or was restored |
| ControlRuns.CrashBetweenRenamesLosesBoth | crates/core/src/daemon.rs:1730-1738 | an update that crashes between its two renames ends with neither copy |
| RendererGate.GateLog.ExecutionPlan | crates/core/src/daemon.rs:1921-2058 | a plan computation returns the plan, leaves in the gate map exactly this application's dropped pairs, touches no other's, and logs exactly the edges; one that cannot read the installed plugins changes nothing, one for an application not served forgets its entries |
| RendererGate.GateLog.RemoveApplication | crates/core/src/daemon.rs:1190-1195 | removing an application forgets its entries only |
| RendererGate.PruningSettles | crates/core/src/daemon.rs:2047-2058 | the loop's incremental map, pruned, is the old map with this application's entries replaced by what this plan dropped |
| RendererGate.EdgesAreLoggedOnce | crates/core/src/daemon.rs:2005-2035 | the logged drops are exactly those new or with another fingerprint, each once |
| RendererGate.DroppedIs | crates/core/src/daemon.rs:1985-2000 | what an operation drops: exactly the plugins with effective grants and a renderer payload and neither `renderer.script` nor `runtime.unsafe`, under the fingerprint of those grants |
| RendererGate.PlanIsAuthorized | crates/core/src/daemon.rs:1921-2045 | a plan entry is enabled, granted in stored order only what policy, manifest and level all allow, and carries the renderer payload exactly with `renderer.script` or `runtime.unsafe`, the style exactly with `renderer.css`, the main payload exactly with `electron.window` or `runtime.unsafe` |
| RendererGate.PlanIsComplete | crates/core/src/daemon.rs:1951-2045 | the plan lists, in the order of the installed plugins, exactly those with a grant in force, each once and with all of its grants in force |
| RendererGate.FingerprintIdentifiesGrants | crates/core/src/daemon.rs:2005-2020 | two drops, of any plugins in any states, have one fingerprint exactly when their effective grants are equal |
| RendererGate.GrantedIsFree | crates/core/src/daemon.rs:1958-1967 | effective grants never contain the separator of the fingerprint |
| RendererGate.DropGrantsAre | crates/core/src/daemon.rs:1952-2000 | a plan drops exactly the plugins with effective grants and a renderer payload and neither `renderer.script` nor `runtime.unsafe`, each with its effective grants |
| RendererGate.GateRemembersPreviousPlan | crates/core/src/daemon.rs:2047-2058 | after any run of plan computations and removals the map holds for an application exactly what its previous completed plan dropped |
| RendererGate.DropsAreEdgeTriggered | crates/core/src/daemon.rs:1921-2058 | over any run of plans and removals a pair is logged, once, exactly when the plan drops its payload and the application's previous completed plan did not drop it with the same effective grants |
| PluginCache.PluginScanner.InstalledPlugins | crates/core/src/daemon.rs:1828-1881 | a read serves the cache on a hit, a successful scan otherwise, and falls back to the last good list with one event when a scan fails |
| PluginCache.PluginScanner.Invalidate | crates/core/src/daemon.rs:1758-1783 | an install or a removal drops the cache and logs nothing |
| PluginCache.ReadableDirectoryIsServed | crates/core/src/daemon.rs:1822-1851 | in every run of reads and invalidations, when the directory can be scanned a read serves exactly what it holds, cached or not |
| PluginCache.ServesLatestScan | crates/core/src/daemon.rs:1761-1880 | in every run of reads and invalidations a read is refused exactly when no scan has succeeded since the last invalidation, and otherwise serves the latest successful one |
| PluginCache.OutageIsLoggedOnce | crates/core/src/daemon.rs:1858-1873 | in every run of reads and invalidations a scan succeeds between two failure events |
| LogBudget.Budget.Available | crates/core/src/daemon.rs:2084-2102 | the check resets an idle queue, pops stale events and compares; nothing else changes |
| LogBudget.Budget.Commit | crates/core/src/daemon.rs:2104-2110 | a commit records its count of events at the current time behind those kept and marks the application active; other applications and applications never checked are untouched |
| LogBudget.CheckDecidesByHistory | crates/core/src/daemon.rs:2084-2102 | unless more than 540 seconds lie between its two clock readings, the check on the pruned queue decides as the whole history would at the first one, idle reset included |
| LogBudget.FittingBatchKeepsPace | crates/core/src/daemon.rs:634-656 | a batch accepted at its check and committed later keeps every window within the budget |
| LogBudget.BudgetIsExact | crates/core/src/daemon.rs:2084-2110 | over any run, suspended checks included, no half-open 60-second window holds more than 120 committed events of an application, and a batch is accepted exactly when the full history leaves room at the time that counts; that is the check's first reading unless the check took more than 540 seconds |
| LogBudget.ResetForgetsExactlyWhen | crates/core/src/daemon.rs:2094-2097 | the idle reset drops an event of the last minute exactly when more than 600 seconds passed at the second reading since the last activity and the newest event is less than 60 seconds old at the first |
| LogBudget.ResetAdmitsExactlyWhen | crates/core/src/daemon.rs:2094-2102 | in any run a batch is accepted that the full history refuses exactly when the check resets, the batch alone is within 120, and with the events of the last minute it is not; none is refused that the history has room for |
| LogBudget.ResetCanAdmit | crates/core/src/daemon.rs:2094-2102 | a run of one full batch and a suspended check that accepts an event the full history refuses |
| LogBudget.ClosedPaceExactlyWhen | crates/core/src/daemon.rs:2098-2109 | given no closed 60-second window over 120, a committed batch keeps it so exactly when it fits beside the events at most 60 seconds old, of which the check leaves out those exactly 60 seconds old |
| LogBudget.ClosedWindowMayHoldTwice | crates/core/src/daemon.rs:2098-2101 | one admitted batch that makes a closed window of exactly 60 seconds hold 240 events |
| LaunchTokens.VerifiesExactlyWhen | crates/core/src/daemon.rs:2670-2701 | a token is accepted with given claims exactly when it is sealed under the key and its four segments are the version, the prefix with 64 hexadecimal digits as application id, the issue date, at most five seconds ahead, and a nonce of 16 hexadecimal digits |
| LaunchTokens.SignedTokenVerifies | crates/core/src/daemon.rs:2631-2648 | a signed token verifies to what was signed |
| LaunchTokens.RenewalExactlyWhen | crates/core/src/daemon.rs:438-447 | a renewal succeeds exactly from five seconds before the issue to 24 hours after it and returns a fresh token for the same application |
| LaunchTokens.RenewalsKeepTheSession | crates/core/src/daemon.rs:438-505 | renewed in time, a session keeps its application through any number of renewals |
| LaunchTokens.IdleSessionRecovers | crates/core/src/daemon.rs:438-450 | a session kept by timely renewals admits requests for its application exactly until 600 seconds after the last one, and up to 24 hours one more renewal revives it |
| Strings.LowerPairs | crates/package/src/lib.rs:523 | folding to lower case changes each of the 26 capitals into its small letter and nothing else |
| Strings.UpperPairs | crates/core/src/daemon.rs:822 | folding to upper case changes each of the 26 small letters into its capital and nothing else |
| Strings.Utf8SizeIs | crates/core/src/log_store.rs:211 | the byte length of a text is that of its UTF-8 encoding |
| Redirects.NetworkRequest | crates/core/src/daemon.rs:752-1029 | a request is rejected by the first failing check, authorization by the current plan first, with nothing sent, or sends exactly the chain of hops and ends as the last answer decides |
| Redirects.AuthorizedIsGranted | crates/core/src/daemon.rs:1035-1085 | a request is authorized only for a plugin that the stored policy enables and grants `network.access`, whose manifest asks for it, in a Level 2 application |
| Redirects.AuthorizedExactlyWhen | crates/core/src/daemon.rs:1035-1085 | an installed plugin gets its whitelist exactly when the network is in force for it and the whitelist can be read and is not empty; otherwise with which code it is refused |
| Redirects.OthersAreRefused | crates/core/src/daemon.rs:1035-1069 | a plugin that is not installed is forbidden, and when the installed plugins cannot be read a served application gets an internal error |
| Redirects.ValidatedExactlyWhen | crates/core/src/daemon.rs:2134-2163 | which URLs may be requested and where they lead: HTTP or HTTPS without credentials to a host name, in lower case without trailing dots, on the given port, else on 80 or 443 |
| Redirects.PreparedExactlyWhen | crates/core/src/daemon.rs:784-902 | a request is accepted, and is then the first one sent, exactly when its URL of at most 16 KiB parses and leads to a whitelisted place, its method is one of the six in upper case, GET if none, its headers are the plugin's in order and each sendable, and its body is the plugin's, at most 1 MiB and none on GET and HEAD |
| Redirects.RejectedExactlyWhen | crates/core/src/daemon.rs:784-882 | any other request is rejected, as forbidden exactly when its URL parses within the limit and leads to no whitelisted place, and as invalid otherwise |
| Redirects.HeadersAcceptedExactlyWhen | crates/core/src/daemon.rs:853-882 | the headers accepted are those whose every name is a token as section 3.2.6 of RFC 7230 has it, not one the transport owns, and whose every value has no line break, within the size limits |
| Redirects.FollowRedirects | crates/core/src/daemon.rs:881-987 | the redirect loop against any transport sends the specified hops in order |
| Redirects.CourseIsExact | crates/core/src/daemon.rs:891-1027 | every answer is the transport's to that request; it is followed exactly when it redirects, fewer than five did before and its target resolves to a whitelisted place, and otherwise ends the request: delivered within the limits, or refused with the code and the audit that belong to it |
| Redirects.EveryRequestIsWhitelisted | crates/core/src/daemon.rs:946-966 | at most six requests are sent, each to a valid URL whose host and port the whitelist allows |
| Redirects.MethodAndBodyAt | crates/core/src/daemon.rs:967-979 | over the whole chain, as section 6.4 of RFC 7231 has it: HEAD stays, any other method and its body are resent until the first 301, 302 or 303, and from there on it is GET without body |
| Redirects.BodiesOnlyShrink | crates/core/src/daemon.rs:967-979 | GET and HEAD never carry a body and a cleared body never returns |
| Redirects.CredentialsStayOnTheirHost | crates/core/src/daemon.rs:980-987 | `authorization` and `cookie` are sent exactly while every hop so far used the first host |
| Redirects.OtherHeadersAreKept | crates/core/src/daemon.rs:980-987 | every other header is sent with every request |
| Redirects.PreparedHop | crates/core/src/daemon.rs:792-873 | what is prepared leads to a whitelisted place and is what the parameters describe |
| Redirects.SixthRedirectIsRefused | crates/core/src/daemon.rs:923-936 | a sixth answer that still redirects ends in an error and is audited as failed |
| Domains.ValidateDomains | crates/package/src/lib.rs:443-480 | the manifest check accepts a list exactly when it has at most 64 entries, each accepted, no two with one normal form |
| Domains.AcceptedWhenDistinct | crates/package/src/lib.rs:464-478 | the loop's running verdict on the first k entries is that every one is accepted and no two have one normal form |
| Domains.EntryAcceptedExactlyWhen | crates/package/src/lib.rs:485-610 | an entry has a normal form exactly when that is its trimmed text in lower case and this is a host, four octets or labels as section 2.3.1 of RFC 1035 has them, at least two behind a star, with at most a port from 1 to 65535 |
| Domains.NormalizeIsIdempotent | crates/package/src/lib.rs:485-547 | normalizing a normal form changes nothing |
| Domains.SplitRecovers | crates/core/src/daemon.rs:2196-2201 | splitting a normal form recovers its host and a port from 1 to 65535 |
| Domains.SuffixIsLabels | crates/core/src/daemon.rs:2182-2188 | the byte-suffix test is the test that the host's labels are a non-empty front followed by the base's |
| Domains.EntryMeansItsLabels | crates/core/src/daemon.rs:2175-2201 | a normalized entry allows exactly the hosts whose labels it names, on its own port |
| Domains.StoredAgreesExactlyWhenTrimmed | crates/package/src/lib.rs:637-654 | the stored entry answers every request as the checked one exactly when the manifest text had no surrounding whitespace |
| Domains.StoredAllowsExactly | crates/package/src/lib.rs:637-654 | what the stored form of an accepted entry allows: what its normal form allows without surrounding whitespace, its hosts on every port with whitespace only behind a port, nothing with any other |
| Domains.WhitelistAllowsExactly | crates/core/src/daemon.rs:2169-2201 | the whitelist Core keeps for accepted entries allows a host and a port exactly when one entry names the host's labels and applies to the port: without surrounding whitespace on its own port or any if it has none; with whitespace only behind a port, on every port |
| Domains.StoredWidensExactlyWhen | crates/core/src/daemon.rs:2175-2201 | the stored entry allows a request that its normal form refuses exactly when the text has a port with whitespace behind it and none in front and the request is to a host of the entry on another port |
| Domains.StoredCanWiden | crates/core/src/daemon.rs:2175-2201 | one such entry and request |
| Framing.Reader.ReadFrame | crates/ipc/src/lib.rs:242-274 | the result depends only on the bytes, not on how they are cut into chunks, and what follows the frame is left |
| Framing.HandleConnection | crates/ipc/src/lib.rs:215-237 | a connection answers each frame in order, each answer depending on the frames so far, up to the end, a frame too large, or an answer that cannot be written |
| Framing.AnswersAre | crates/ipc/src/lib.rs:223-235 | the k-th answer is to the frames up to the k-th, and answers stop early only at one that could not be written |
| Framing.FramesRoundTrip | crates/ipc/src/lib.rs:307-312 | concatenated encoded frames are read back in order |
| Framing.RefusedExactlyWhen | crates/ipc/src/lib.rs:253-269 | a frame is refused exactly when more than 2^20 bytes come before its newline |
| Framing.FrameReader.OnData | crates/injector/assets/bootstrap.js:64-95 | after each data event the reply is what the bytes received so far make of it |
| Framing.FrameReader.Receive | crates/injector/assets/bootstrap.js:58-97 | the settled reply is that of the whole stream, however it was cut |
| Framing.ReadersAgree | crates/injector/assets/bootstrap.js:58-97 | on every stream with a newline both readers refuse or give the same bytes |
| Framing.ReadersDifferWithoutNewline | crates/ipc/src/lib.rs:246-252 | without one they refuse the same streams, but Core serves the partial frame while the client waits |
| Renewal.Transport.Request | crates/injector/assets/bootstrap.js:218-223 | a request first enters the renewal chain |
| Renewal.Transport.RunTask | crates/injector/assets/bootstrap.js:211-216 | a link of the chain does nothing when no renewal is due, gives up while backing off, and otherwise sends one renewal with the current secret |
| Renewal.Transport.RenewReply | crates/injector/assets/bootstrap.js:165-207 | a reply with the renewal's id and version, no error and a token replaces the secret; any other outcome sets the 30-second back-off |
| Renewal.Transport.Resume | crates/injector/assets/bootstrap.js:157-163 | the request goes out under a new id, or the first reply is returned when the forced renewal failed |
| Renewal.Transport.ReceiveReply | crates/injector/assets/bootstrap.js:223-238 | only a first -32001 reply forces a renewal; every other reply is final |
| RenewalRuns.StepKeepsInv | crates/injector/assets/bootstrap.js:120-240 | every step of any interleaving keeps the chain in line, the trace justified and every waiting request accounted for by the replies it had |
| RenewalRuns.RunObeys | crates/injector/assets/bootstrap.js:120-240 | the trace of every run, sendings and replies as they went over the wire, satisfies what each entry owes to those before it |
| RenewalRuns.SecondSendIsEarned | crates/injector/assets/bootstrap.js:223-236 | a second sending comes after a reply to the first sending's id with error -32001, and after that a reply to a renewal forced for this request with that renewal's id, no error and a token |
| RenewalRuns.AdoptionReplacesPresentedSecret | crates/injector/assets/bootstrap.js:177-207 | the secret in force changes with a reply that carries the id of the open renewal, no error and a token, and replaces the very secret that renewal presented |
| RenewalRuns.SecretChangesOnlyByMatchingReply | crates/injector/assets/bootstrap.js:177-207 | in every run a step changes the secret only by receiving a reply without error whose id is that of a renewal sent with the old secret, and to that reply's token |
| RenewalRuns.RenewalsDoNotOverlap | crates/injector/assets/bootstrap.js:120-126 | between two renewals sent, the first was answered |
| RenewalRuns.RenewalsAreSpaced | crates/injector/assets/bootstrap.js:151-155 | no renewal is sent within 30 seconds after a failed one |
| RenewalRuns.EveryRunIsSafe | crates/injector/assets/bootstrap.js:111-240 | in every interleaving ids never repeat, renewals neither overlap nor follow a failure within 30 seconds, and no request is sent more than twice |
| RenewalProgress.RenewalsAreShared | crates/injector/assets/bootstrap.js:205-216 | in every run, however many requests ask, no renewal goes out within nine minutes of the start or of a granted renewal unless a rejection forced it |
| RenewalProgress.RequestsMakeProgress | crates/injector/assets/bootstrap.js:205-238 | whatever happens next, no request is set back; while it is not finished some step of its own or of the chain takes it closer to its end, whatever the environment answers |
| RenewalProgress.RequestCanFinish | crates/injector/assets/bootstrap.js:205-238 | from every point of every run each request can be finished, even if every reply is a failure |
| Utf8.DecodesBack | crates/injector/assets/bootstrap.js:21-34 | the UTF-8 encoding of RFC 3629, section 3, in whose bytes messages are measured: the lead byte announces the length and the value is read back |
| Utf8.EncodingIsInjective | crates/injector/assets/bootstrap.js:21-34 | no two texts have one encoding |
| LogMessages.ByteLengthIs | crates/injector/assets/bootstrap.js:21-34 | the byte length of a well-formed UTF-16 text is that of its UTF-8 encoding, a surrogate pair being one character |
| LogMessages.BoundedMessage | crates/injector/assets/bootstrap.js:21-34 | the binary search finds the specified cut |
| LogMessages.BoundedFits | crates/injector/assets/bootstrap.js:21-34 | a bounded message has at most 1024 bytes and keeps the longest prefix that leaves room for the suffix |
| LogMessages.CutIsExact | crates/injector/assets/bootstrap.js:26-32 | exactly the prefixes up to the cut fit the budget |
| LogMessages.SplitsPairExactlyWhen | crates/injector/assets/bootstrap.js:28-33 | the cut falls inside a surrogate pair exactly when 1006 bytes come before the pair |
| LogMessages.BoundedIsWellFormedExactlyWhen | crates/injector/assets/bootstrap.js:21-34 | bounding keeps a well-formed message well-formed unless it is too long and a surrogate pair begins after its first 1006 bytes |
| LogMessages.BoundingCanBreakAPair | crates/injector/assets/bootstrap.js:28-33 | a well-formed message whose bounded form is not |
| LogDelivery.LogSink.Log | crates/injector/assets/bootstrap.js:265-282 | an event is bounded and queued; a full queue first gives up its oldest item and counts it |
| LogDelivery.LogSink.DeliverLogs | crates/injector/assets/bootstrap.js:284-291 | an idle sink with items takes up to 16 of the first item's stream in flight |
| LogDelivery.LogSink.Settle | crates/injector/assets/bootstrap.js:292-319 | an acknowledgement removes the batch item by item and announces losses in front; a failure keeps the queue |
| LogDelivery.BatchIsFirst | crates/injector/assets/bootstrap.js:284-289 | a batch is of the first item's stream and takes all items of that stream from the front of the queue in order, up to 16 |
| LogDelivery.NoticeFits | crates/injector/assets/bootstrap.js:303-310 | the notice is within the message limit for every count |
| LogDelivery.NoticeNamesCount | crates/injector/assets/bootstrap.js:303-310 | the notice names the number of dropped events in decimal |
| LogDeliveryRuns.EveryBatchIsValid | crates/core/src/daemon.rs:2073-2079 | in every run each batch sent is of one stream and within Core's limits, and Core takes every batch if no message logged was ill-formed or cut inside a surrogate pair |
| LogDeliveryRuns.SplitMessageIsRefused | crates/core/src/daemon.rs:2073-2079 | a run with one well-formed message whose batch Core does not take |
| LogDeliveryRuns.MalformedHeadBlocks | crates/injector/assets/bootstrap.js:284-319 | while the head of the queue does not decode, nothing is acknowledged until a full queue shifts an item out |
| LogDeliveryRuns.AcknowledgedOnceInOrder | crates/injector/assets/bootstrap.js:284-321 | in every run nothing is acknowledged twice and per stream ordinary events are acknowledged in enqueue order |
| LogDeliveryRuns.ItemsCarryTheirEvents | crates/injector/assets/bootstrap.js:265-311 | in every run whatever is queued, sent, acknowledged or lost is a logged event on its own stream with its message bounded, or a notice of the losses there were |
| LogDeliveryRuns.EveryEventIsAccountedFor | crates/injector/assets/bootstrap.js:265-311 | in every run an event is queued, acknowledged or shifted out, not queued again once acknowledged or shifted out; shifted-out items are counted in a notice or about to be; and an event is both acknowledged and so counted exactly when it was shifted out of a batch in flight that was acknowledged afterwards |
| LogDeliveryRuns.LostCanBeAcknowledged | crates/injector/assets/bootstrap.js:265-311 | a run whose one reported loss is an event that was acknowledged |
| LogDeliveryRuns.QueueExceedsExactlyWhen | crates/injector/assets/bootstrap.js:303-310 | the queue outgrows 256 exactly when a batch of which nothing is left in a full queue is acknowledged with losses to announce |
| LogDeliveryRuns.QueueCanExceedCap | crates/injector/assets/bootstrap.js:267-310 | a run that reaches 257 items |
| AsarTree.Collector.CollectIn | crates/injector/src/asar_merge.rs:168-187 | the walk, in any order of names, adds every unpacked node below the directory once, under its path and as it is, and restores the prefix |
| AsarTree.MergedHeader.InsertUnpackedEntries | crates/injector/src/asar_merge.rs:190-205 | the entries are inserted in order, up to the first that collides |
| AsarMerge.InsertShapes | crates/injector/src/asar_merge.rs:207-229 | after one insertion every path holds what it should: the node at and below its path, directories above, the rest as before |
| AsarMerge.InsertFailsExactlyWhen | crates/injector/src/asar_merge.rs:207-229 | insertion fails exactly for an empty path or where a file stands in the way |
| AsarMerge.ReinsertShapes | crates/injector/src/asar_merge.rs:190-229 | entries of one source go into any header without a file in their way, and what every path then holds depends only on the set of entries |
| AsarMerge.FileIsKeptExactlyWhen | crates/injector/src/asar_merge.rs:207-229 | a file already there is kept exactly when no inserted path is at or above it, or the source held the same |
| AsarMerge.PackedFileCanBeReplaced | crates/injector/src/asar_merge.rs:207-229 | one header and one unpacked directory that loses the file the writer entered: the source's node replaces it |
| AsarMerge.MergeRestoresUnpacked | crates/injector/src/asar_merge.rs:36-113 | rewriting succeeds, the unpacked entries are then exactly the source's, at and below each the trees are equal node for node, every other path holds what it held, and what else is new lies above a restored entry |
| AsarMerge.PackedFilesAreKept | crates/injector/src/asar_merge.rs:36-113 | where the source keeps packed and unpacked apart, each file the writer packed is still there |
| AsarMerge.CollectedIsCollection | crates/injector/src/asar_merge.rs:158-166 | what the collector gathers from a whole header is the collection the theorem speaks of |
| AsarBytes.WriteAsar | crates/injector/src/asar_merge.rs:235-257 | the file written is the specified layout and its length is returned |
| AsarBytes.FittingTextReadsBack | crates/injector/src/asar_merge.rs:129-152 | a header text of at most 2^32 - 12 bytes parses back with a 4-aligned payload start from which the bytes are the payload |
| AsarBytes.ReadsBackExactlyWhen | crates/injector/src/asar_merge.rs:235-241 | the round trip holds exactly up to that length, apart from three lengths whose padded size wraps to zero |
| AsarBytes.RelocationKeepsFiles | crates/injector/src/asar_merge.rs:100-113 | after the header is rewritten an offset and a size select the same bytes |
| ArchiveNames.ValidateArchiveEntryName | crates/package/src/lib.rs:1535-1577 | the validator accepts a name and returns its key exactly as `NameKey` says |
| ArchiveNames.ReservedExactlyWhen | crates/package/src/lib.rs:1586-1620 | a segment is reserved exactly when its stem in upper case is CON, PRN, AUX, NUL, CONIN$ or CONOUT$, or COM or LPT with one digit from 1 to 9, superscript or not |
| ArchiveNames.NameAcceptedExactlyWhen | crates/package/src/lib.rs:1535-1577 | a name is accepted with a key exactly when it spells permitted segments with either separator and the key is those in lower case, joined by slashes |
| ArchiveNames.ValidatedNameJoins | crates/package/src/lib.rs:1515-1524 | after validation the zip-slip guard never fails and plans exactly the name's segments |
| ArchiveNames.GuardExactlyWhen | crates/package/src/lib.rs:1515-1524 | the guard alone refuses exactly names that are rooted, begin with a dot or a drive, or step up in any segment |
| ArchiveNames.ValidatedSegmentsAreOrdinary | crates/package/src/lib.rs:1535-1601 | each segment of a validated name is an ordinary file name |
| ArchiveNames.KeysIdentifyPaths | crates/package/src/lib.rs:1550-1577 | two validated names have one key exactly when their paths are equal without regard to ASCII case |
| ArchivePasses.EntryCheck.Check | crates/package/src/lib.rs:1326-1356 | one entry is accepted exactly within the limits, with a valid name and a new key |
| ArchivePasses.PlanExtraction | crates/package/src/lib.rs:1318-1360 | the check before extraction succeeds exactly on accepted lists and plans their paths |
| ArchivePasses.InspectEntries | crates/package/src/lib.rs:1194-1233 | inspection accepts exactly the same lists |
| ArchivePasses.AcceptedExactlyWhen | crates/package/src/lib.rs:1318-1360 | both passes accept exactly lists of at most 1000 entries, each of at most 16 MiB and a hundred times its compressed size, with a valid name and a new key, the running total at most 64 MiB and a hundred times the running compressed total |
| ArchivePasses.CompressedWraps | crates/package/src/lib.rs:1346 | the running compressed total is the sum of the compressed sizes modulo 2^64 |
| ArchivePasses.PlannedPathIsBelow | crates/package/src/lib.rs:1351-1360 | planned paths lie below the destination in ordinary segments |
| ArchivePasses.PlannedPathsDiffer | crates/package/src/lib.rs:1622-1639 | planned paths are pairwise different without regard to ASCII case |
| ArchivePasses.AcceptedArchiveIsBounded | crates/package/src/lib.rs:1331-1350 | the entries of an accepted archive declare at most 64 MiB, and at most a hundred times the compressed total |
| ArchivePasses.FileBelowFileIsAccepted | crates/package/src/lib.rs:1622-1639 | a file and an entry below it are both accepted |
| ArchiveWrites.WriteAll | crates/package/src/lib.rs:1362-1376 | entries are written in order, directories made as needed, up to the first that the environment or the files already written refuse |
| ArchiveWrites.DirectoryExactlyWhen | crates/package/src/lib.rs:1362-1366 | an accepted name spells its segments, a directory with a separator behind them and a file without |
| ArchiveWrites.Extract | crates/package/src/lib.rs:1298-1376 | nothing is written for a rejected list; an accepted one is written in order, completely or up to the first entry refused |
| ArchiveWrites.ExtractsExactlyWhen | crates/package/src/lib.rs:1313-1376 | on an empty destination that refuses nothing else, comparing names exactly or without regard to ASCII case, an accepted list extracts completely exactly when no file entry's segments are a proper prefix of another entry's |
| ArchiveWrites.FileBelowFileIsNotExtracted | crates/package/src/lib.rs:1313-1376 | one accepted list, a file and an entry below it, whose writing stops short |
| ArchiveWrites.ExtractedTreeIsExact | crates/package/src/lib.rs:1362-1376 | a complete extraction leaves each file's content at its own path, no other file, and only directories that entries name or lie in |

## Left out

- LogRuns.GoingOnAfterFailedWrite: assumes that a piece of one record's text followed by another's is not a record, as with JSON objects.
- LogRuns.SequencesAreNotReused: a corrupt archive that startup moves aside can lower the largest known sequence; runs here start from an empty disk and nothing else damages files.
- LogStore.LogStore.Open: symbolic-link, permission and reparse-point checks on log files, and the quarantined copies themselves, are environment.
- LogPaging.PagingDuringARun: runs of fewer than 2^64 - 1 events, so that sequences are distinct.
- PolicyRuns.NoLostUpdate: a write Core applied but whose reply was lost counts as rejected, so Core's policy is assumed unchanged by rejected writes; refreshes do not overlap and nobody else changes the scope.
- PolicyQueue.Manager.FinishRefresh: the map entry and the closures of a queue share one object in the source; here a queue is a value, which also means a queue deleted by a refresh has no write left, as the invariant shows.
- ControlPlane.CoreService.SetPluginConfig: config values are text; their schema types are not part of this model.
- ControlRuns.StoredGrantsAreSupported: the cached list of installed plugins may be stale, so the list a request sees is arbitrary.
- ControlPlane.CoreService.SetPolicy: a request whose read of the installed plugins fails is answered with an error and changes nothing.
- PluginCache.ServesLatestScan: an invalidation is a step of its own, taken whenever an install or a removal has changed the directory.
- PluginCache.ReadableDirectoryIsServed: assumes a fingerprint determines the directory's plugins and a directory unchanged between fingerprint and scan.
- RendererGate.GateLog.ExecutionPlan: reading payload files and merging configuration defaults.
- LogBudget.BudgetIsExact: assumes a clock that does not run backwards.
- LaunchTokens.VerifiesExactlyWhen: that nobody without the key can compute the digest is a property of HMAC, not of this code.
- Redirects.NetworkRequest: URL parsing and joining are parameters; the audit record is the host, status and size, not its text.
- Framing.Reader.ReadFrame: I/O errors, timeouts and the lossy conversion of bytes to text; the limit on concurrent connections would add only easy members.
- RenewalRuns.EveryRunIsSafe: one clock reading per step, a clock that does not run backwards, and one transport per renewal chain.
- LogDelivery.LogSink.Log: an event's level and plugin id travel with its message and are left out.
- LogDelivery.LogSink.Settle: retry delays and the console fallback.
- LogDeliveryRuns.EveryBatchIsValid: JSON itself is not part of this model; that a lone surrogate is escaped by the client and not decoded by Core is taken from the standards of both sides (RFC 8259, section 8.2).
- LogDelivery.NoticeFits: the counter stops at 2^53 as JavaScript numbers do.
- AsarMerge.MergeRestoresUnpacked: the archive writer is characterized, not modelled: it packs the source's packed files and the two overrides, may enter unpacked files such as links in its own way, and marks no directory as unpacked; nothing of the source is unpacked below an overridden name. JSON serialization is a byte text, and a header without a root `files` map is not part of this model.
- AsarBytes.ReadsBackExactlyWhen: sizes wrap as in a release build; a debug build stops instead.
- ArchiveWrites.Extract: decompression, the manifest and protocol gates, and the scan for byte-identical duplicate names; what an entry refused by the environment leaves half done; a destination that is not empty; case folding beyond ASCII. An entry is taken as a directory by a trailing separator, as the zip library does, which is not part of this model.
- ArchivePasses.AcceptedArchiveIsBounded: the compressed total is the wrapping 64-bit sum.
- Registry, process injection, autostart, TLS and sockets: foreign calls with little state of their own.
- Rendering, focus, scrolling and translation in the Manager: user interface.
- Manifest fields, request parameter shapes and error texts: each is settled by reading one branch.
- Storage migration, the scaffolder, command-line tools and example plugins: easy or bound to I/O.
