# A verified model of salve-push

salve-push delivers JavaScript bundles over the air: a CLI signs and uploads a bundle, a server stores and
publishes it, and an SDK inside a React Native app downloads, verifies and installs it, with an automatic rollback
when an update crashes before the app has confirmed it. This project models that path in Dafny and proves what it
keeps, over unbounded runs, with the process killed at any step.

| file | models |
|---|---|
| `Disk.dfy` | the files below `salve-push/`, the atomic filesystem steps, and the steps of each operation. A step is done, killed (possibly after a partial effect; a thrown error ends the operation in the same place), or lost: reported as failed to a caller that ignores it |
| `SalvePushStorage.dfy` | the storage object as a class whose methods issue those steps, each with whatever fate is due |
| `CrashSafety.dfy`, `CutOperations.dfy` | crash consistency, and what each operation leaves when it is cut or fails unnoticed |
| `Recovery.dfy`, `MountGuard.dfy`, `History.dfy` | restartable rollback, the crash paths, rollback targets, and the install history |
| `SerialQueue.dfy`, `Race.dfy` | the iOS serial queue, the reads beside it, and a rollback beside an install |
| `CrashMarker.dfy`, `CrashHandlers.dfy` | the signal handler's text and buffers, the handler table, the exception and log hooks |
| `Migrate.dfy` | any number of server instances that migrate one database |
| `Signing.dfy`, `Update.dfy`, `SalvePush.dfy` | base64, the signed message, verification, and the facade's calls interleaved at every await |
| `Releases.dfy` | the release service over a blob store and a table |
| `EndToEnd.dfy` | from the file the CLI reads to the bundle the device boots |

One disk model serves both platforms. Kotlin parses the crash marker before it deletes the file and Swift after; the
content is in memory either way and parsing touches no file, so both have the same steps. They differ in which
failures the caller ignores (`Disk.MayBeLost`).

What the proofs say about the code as it is:

- A reinstalled id that is current or previous is not protected against a kill (`TornInstallIsSafeIff`).
- Kotlin's `installUpdate` and `writeState` ignore failed renames, which can leave a current or previous release
  without a bundle (`KotlinInstallIsSafeIff` says exactly when); Swift's cannot.
- Both rollbacks create the mount marker even if the state was not replaced, which ends the protection
  (`LostWriteEndsProtection`).
- A crash in the session that installed an update undoes the update before it ever ran, unless notifyAppReady was
  called again (`CrashAfterInstallUndoesIt`), and then it confirms an update that never ran
  (`ConfirmRecordsTheRunningReleaseIff`).
- Installing the signal handlers twice, which nothing on iOS prevents, makes the handler call itself for ever, directly
  or through crash reporters that chain (`RepeatedInstallLoopsIff`).
- A download that completes during an install is discarded (`DownloadDuringInstallIsDiscarded`;
  `DownloadIsHandedOverIff` says exactly which downloads survive).
- Installing only while mount.marker is there does not make every rollback target a confirmed release: one kill point
  of an install, and a rollback that loses the state but creates the marker, leave an unconfirmed release mounted
  (`MountGuardHoldsIff`).
- A same-session rollback on iOS is not serialised with installs and can make a release current whose bundle is gone
  (`CurrentLosesItsBundleIff`).
- A Publish that overlaps the insert of its row can return it unpublished (`PublishReturnsPublishedIff`).
- A release can be in the table although Create failed, and published although Publish failed: when the statement was
  committed and the client saw an error (`Create`, `Publish`).
- A comment in salve_push_crash_handler.cpp (lines 24-26) says that mount.marker is deleted once notifyAppReady() is
  called. The code creates it then and deletes it on install; the model follows the code.

SHA-256, Ed25519 and UTF-8 encoding are parameters (`Signing.Crypto`); each theorem names what it assumes of them.
Clocks, generated ids, server answers and failures are parameters of the steps.

## Model

| member | source | states |
|---|---|---|
| `SalvePushStorage.Storage.InstallUpdate` | packages/sdk-react-native/android/src/main/java/com/margelo/nitro/salvepush/SalvePushStorage.kt:56-78 | whatever happens to its calls, the calls issued are the install's step list in that order, up to the one that was cut short or threw, and the disk is what they leave; the listing is what pruning read |
| `SalvePushStorage.Storage.PruneOldReleases` | packages/sdk-react-native/android/src/main/java/com/margelo/nitro/salvepush/SalvePushStorage.kt:127-133 | every listed entry outside `keep` is removed, one call each, in listing order, up to a call that ends the process; the listing has every entry once |
| `SalvePushStorage.Storage.WriteState` | packages/sdk-react-native/android/src/main/java/com/margelo/nitro/salvepush/SalvePushStorage.kt:40-44 | state.json is replaced by a whole sibling write followed by a rename, either of which may be cut |
| `SalvePushStorage.Storage.ConfirmBoot` | packages/sdk-react-native/android/src/main/java/com/margelo/nitro/salvepush/SalvePushStorage.kt:80-83 | the marker is created before the state is replaced; the disk is what those steps leave, cut anywhere or not |
| `SalvePushStorage.Storage.GetCurrentReleaseId` | packages/sdk-react-native/android/src/main/java/com/margelo/nitro/salvepush/SalvePushStorage.kt:85-86 | the current id of a readable state, or the empty string |
| `SalvePushStorage.Storage.ResolveBundlePath` | packages/sdk-react-native/android/src/main/java/com/margelo/nitro/salvepush/SalvePushStorage.kt:89-94 | consumes a pending crash marker and, unless cut short, returns the current release's bundle, or nothing when there is none on disk |
| `SalvePushStorage.Storage.ProcessCrashMarkerIfPresent` | packages/sdk-react-native/android/src/main/java/com/margelo/nitro/salvepush/SalvePushStorage.kt:96-108 | deletes a marker that was read and rolls back exactly when its text asks for it |
| `SalvePushStorage.Storage.RollbackToPreviousIfUnconfirmed` | packages/sdk-react-native/ios/SalvePushStorage.swift:117-120 | issues a rollback's steps when unmounted and nothing when mounted |
| `SalvePushStorage.Storage.RollbackToPrevious` | packages/sdk-react-native/ios/SalvePushStorage.swift:122-130 | without a previous release no call at all; otherwise replace the state, then create the marker |
| `SalvePushStorage.Storage.WriteCrashMarker` | packages/sdk-react-native/cpp/salve_push_crash_handler.cpp:34-45 | truncates the marker, then writes the printed text with the flag decided beforehand |
| `Disk.StateIsAtomic` | packages/sdk-react-native/android/src/main/java/com/margelo/nitro/salvepush/SalvePushStorage.kt:40-44 | whatever is killed, torn or lost in any operation, state.json is the old document or the one the operation wants, never a part; signals and rollbacks without a target never touch it |
| `CrashSafety.EveryRunIsConsistent` | packages/sdk-react-native/android/src/main/java/com/margelo/nitro/salvepush/SalvePushStorage.kt:56-94 | from an empty device, over every run of operations with kills, torn writes and ignored failures at any step, with ids that are neither current nor previous: current and previous have the complete bytes they were installed with, and a launch loads them |
| `CrashSafety.TornInstallIsSafeIff` | packages/sdk-react-native/android/src/main/java/com/margelo/nitro/salvepush/SalvePushStorage.kt:56-78 | killing an install anywhere keeps the device consistent if and only if its id is neither current nor previous |
| `CrashSafety.SwiftInstallsAreDurable` | packages/sdk-react-native/ios/SalvePushStorage.swift:63-83 | on Swift a failed rename always ends the install, so no legal failure pattern of an install is a silent one |
| `CrashSafety.KotlinInstallIsSafeIff` | packages/sdk-react-native/android/src/main/java/com/margelo/nitro/salvepush/SalvePushStorage.kt:61-78 | over every way in which the calls of an install can be cut, torn or fail unnoticed on Kotlin, every consistent device stays consistent if and only if the install ended before its rename of state.json, or that rename and the bundle's happened, or it was lost and nothing was pruned |
| `Recovery.RecoveryIsRestartable` | packages/sdk-react-native/android/src/main/java/com/margelo/nitro/salvepush/SalvePushStorage.kt:96-125 | from a pending, unmounted release with a previous one, any number of killed crashes, launches and rollbacks leaves the same protected state or the previous release for good |
| `Recovery.FirstFullCrashRestores` | packages/sdk-react-native/android/src/main/java/com/margelo/nitro/salvepush/SalvePushStorage.kt:96-125 | after any such run the first uncut crash and launch restore the previous release, and it stays through any later crashes |
| `Recovery.CrashAndLaunch` | packages/sdk-react-native/ios/SalvePushStorage.swift:106-113 | a crash and the next launch amount to one rollback when unmounted and to nothing when mounted |
| `Recovery.UnfinishedMarkerIsHarmless` | packages/sdk-react-native/cpp/salve_push_crash_handler.cpp:34-45 | after a marker write that was cut short the next launch does what an older marker asks for if that is still there, and otherwise leaves the state alone |
| `Recovery.NextLaunchAfterTornInstall` | packages/sdk-react-native/ios/SalvePushStorage.swift:63-113 | after an install that ended anywhere, by a kill, a thrown error or a crash signal, with or without an older crash marker: the next launch loads exactly the bytes of the old current release, the new one, or (only if the state was not replaced and the crash asks for a rollback) the previous one, and which of them it is |
| `Recovery.LostWriteEndsProtection` | packages/sdk-react-native/ios/SalvePushStorage.swift:106-130 | a rollback by the same session or at launch, killed or failing unnoticed anywhere, still leads back to the previous release, at the latest after one more crash, if and only if it did not lose the state while creating the marker |
| `Recovery.KilledLaunchForgetsTheCrash` | packages/sdk-react-native/ios/SalvePushStorage.swift:106-113 | a launch forgets the crash, staying protected but loading the unconfirmed release again, if and only if it deleted the marker and neither replaced the state nor created the mount marker; without unnoticed failures, if and only if it was killed between the two |
| `Recovery.ConfirmMarksFirst` | packages/sdk-react-native/ios/SalvePushStorage.swift:85-90 | a confirmBoot killed anywhere never leaves a confirmed state without the marker |
| `Recovery.AgreementIsKeptIff` | packages/sdk-react-native/android/src/main/java/com/margelo/nitro/salvepush/SalvePushStorage.kt:67-125 | whatever is killed or fails unnoticed: an operation keeps mount marker and bootStatus in agreement if and only if it made both or neither of the two calls that change them, or need not change both |
| `Recovery.CrashPathsAgree` | packages/sdk-react-native/ios/SalvePushCrashHandlerBridge.mm:11-37 | any number of same-session rollbacks, a signal alone, or rollbacks and then a signal, each followed by a launch, end in the same disk as a single rollback, or unchanged when mounted or without a previous release; an older unread marker counts only without a new signal, and then exactly as it asks |
| `Recovery.RollbacksBoundedByInstalls` | packages/sdk-react-native/android/src/main/java/com/margelo/nitro/salvepush/SalvePushStorage.kt:110-125 | over every run with kills and failures, effective rollbacks never exceed the installs made over a current release |
| `Recovery.CurrentChangesAtMostOnce` | packages/sdk-react-native/android/src/main/java/com/margelo/nitro/salvepush/SalvePushStorage.kt:89-125 | between installs the current release changes at most once, and never without spending the previous one |
| `Recovery.RollbackTargetWasConfirmed` | packages/sdk-react-native/ios/SalvePushStorage.swift:63-90 | if installs happen only over a state recorded as confirmed, or over none, the rollback target was confirmed while current in every reachable state, kills included |
| `Recovery.ConfirmRecordsTheRunningReleaseIff` | packages/sdk-react-native/ios/SalvePushStorage.swift:85-90 | over every session with kills and failures: notifyAppReady confirms the release that runs if every install that took effect since the launch was undone and nothing older was; and only then, if ids tell releases apart |
| `Recovery.ReinstallIsConfirmedByName` | packages/sdk-react-native/src/SalvePush.ts:57-62 | ids must tell releases apart: after reinstalling the running id notifyAppReady confirms that id although an install stands |
| `History.InstallEffect` | packages/sdk-react-native/android/src/main/java/com/margelo/nitro/salvepush/SalvePushStorage.kt:56-78 | a completed install in closed form: the new bundle, the new state, no marker, and exactly the unlisted or kept directories |
| `History.RunsShowTheHistory` | packages/sdk-react-native/android/src/main/java/com/margelo/nitro/salvepush/SalvePushStorage.kt:65-77 | over every run of completed operations (current, previous) is the depth-two view of an unbounded install history that rollbacks shorten, and after an install the directory holds exactly those releases with the bytes of their latest installs |
| `History.MarkerAgreesWithState` | packages/sdk-react-native/cpp/salve_push_crash_handler.cpp:24-36 | between completed operations the mount marker exists if and only if an existing state.json says confirmed, and never before there is one |
| `MountGuard.MountGuardHoldsIff` | packages/sdk-react-native/ios/SalvePushStorage.swift:63-90 | over every set of kills and unnoticed failures: in every run that installs only while mounted or with no current release, the rollback target was confirmed while current, if and only if no pattern lets an install replace the state without deleting the marker or a rollback create the marker without replacing the state |
| `MountGuard.MountedInstallsRollBackToConfirmed` | packages/sdk-react-native/ios/SalvePushStorage.swift:63-90 | every such run without those patterns, on both platforms, only rolls back to confirmed releases |
| `MountGuard.KilledInstallLeavesMounted` | packages/sdk-react-native/android/src/main/java/com/margelo/nitro/salvepush/SalvePushStorage.kt:67-75 | a run from an empty device with one kill, between replacing the state and deleting the marker: every install was guarded, and the target was never confirmed |
| `MountGuard.OnlyThatKillParts` | packages/sdk-react-native/android/src/main/java/com/margelo/nitro/salvepush/SalvePushStorage.kt:67-75 | without unnoticed failures that kill point is the only one |
| `MountGuard.UnguardedInstallKeepsUnconfirmed` | packages/sdk-react-native/ios/SalvePushStorage.swift:74-79 | a run in which an install over an unconfirmed release makes that release the rollback target |
| `History.CrashAfterInstallUndoesIt` | packages/sdk-react-native/android/src/main/java/com/margelo/nitro/salvepush/SalvePushStorage.kt:75-75 | after an install, n calls of notifyAppReady, a crash and a launch, the update is still current if and only if n > 0, or there was no other release; with n = 0 the old one is back |
| `SerialQueue.HybridSalvePushNative.RunNext` | packages/sdk-react-native/ios/HybridSalvePushNative.swift:8-21 | on a disk that any past has left: jobs run in queue order, each to its end or to the call that throws, and the queue goes on; after an install that was not cut the directory holds exactly current and previous |
| `SerialQueue.HybridSalvePushNative.InstallUpdate` | packages/sdk-react-native/ios/HybridSalvePushNative.swift:8-16 | enqueues the id with a copy of the bytes and changes nothing else |
| `SerialQueue.HybridSalvePushNative.GetCurrentReleaseId` | packages/sdk-react-native/ios/HybridSalvePushNative.swift:23-25 | the current id of the disk as it is, also while a job is under way |
| `SerialQueue.ReadSeesAPrefix` | packages/sdk-react-native/ios/HybridSalvePushNative.swift:23-25 | with jobs that may throw anywhere: a read between any two filesystem calls returns the value after a prefix of the jobs that contains every finished one and at most one more |
| `SerialQueue.ReadsNeverGoBack` | packages/sdk-react-native/ios/HybridSalvePushNative.swift:23-25 | with jobs that may throw anywhere: later reads see at least as long a prefix |
| `SerialQueue.StaleRollbackLosesTheBundle` | packages/sdk-react-native/ios/SalvePushStorage.swift:122-130 | serialisation is needed: a rollback that read the state before an install makes the old previous release current, whose bundle is still there if and only if it was also current or is the one just installed |
| `Race.CurrentLosesItsBundleIff` | packages/sdk-react-native/ios/SalvePushStorage.swift:63-130 | over every interleaving of a same-session rollback with an install, call by call: which release is current at the end, and that it has lost its bundle if and only if the rollback read the state before the install replaced it and replaced it afterwards, and its target is neither the old current nor the new release |
| `Race.StaleIsReachable` | packages/sdk-react-native/ios/SalvePushStorage.swift:117-130 | such an interleaving exists on every unconfirmed release with a previous one |
| `Race.MountedIsNeverStale` | packages/sdk-react-native/ios/SalvePushStorage.swift:117-120 | over every interleaving: on a mounted device a same-session rollback is never stale |
| `CrashMarker.MarkerReads` | packages/sdk-react-native/cpp/salve_push_crash_handler.cpp:38-43 | for every signal number and mount status the printed marker parses to exactly that number and flag |
| `CrashMarker.MarkerText` | packages/sdk-react-native/cpp/salve_push_crash_handler.cpp:38-43 | the text is {"signal":<number>,"isAutoRollback":<true or false>} without spaces |
| `CrashMarker.DecimalIs` | packages/sdk-react-native/cpp/salve_push_crash_handler.cpp:38-43 | the digits of the number |
| `CrashMarker.MarkerFits` | packages/sdk-react-native/cpp/salve_push_crash_handler.cpp:38-43 | the marker of any C int has at most 45 characters, so the 256-byte buffer never cuts it |
| `CrashMarker.TornMarkerIsIgnored` | packages/sdk-react-native/ios/SalvePushStorage.swift:106-111 | every strict prefix of a marker is rejected by the parser |
| `CrashMarker.PathBuffersAgree` | packages/sdk-react-native/cpp/salve_push_crash_handler.cpp:73-75 | the buffers name the files that the app uses if and only if the base path has at most 498 bytes |
| `CrashMarker.PathBuffersDistinct` | packages/sdk-react-native/cpp/salve_push_crash_handler.cpp:73-75 | the two buffers differ if and only if the base path has at most 509 bytes |
| `CrashHandlers.SignalTable.Install` | packages/sdk-react-native/cpp/salve_push_crash_handler.cpp:73-88 | the dispositions of SIGABRT, SIGSEGV, SIGILL, SIGBUS, SIGFPE, SIGTRAP, SIGPIPE and SIGSYS, by their numbers on each platform, are ours and the old ones remembered, every other signal keeps its disposition, and the paths are right exactly up to 498 bytes |
| `CrashHandlers.SignalRestoresPreviousIff` | packages/sdk-react-native/cpp/salve_push_crash_handler.cpp:27-88 | on an unconfirmed release with a previous one: a signal makes the next launch restore the previous release if and only if it is one of the eight and the base path has at most 498 bytes; any other changes nothing |
| `CrashHandlers.HandlerReturnsIff` | packages/sdk-react-native/cpp/salve_push_crash_handler.cpp:47-69 | with foreign handlers that return once what they chain to has returned: the handler comes back to re-raise if and only if the chain from the handler it replaced does not lead back to it; then one marker, each chained handler once, the default, the signal |
| `CrashHandlers.RepeatedInstallLoopsIff` | packages/sdk-react-native/cpp/salve_push_crash_handler.cpp:73-88 | over every order of installs by us and by other crash reporters: after our last one the handler calls itself for ever if and only if an earlier one of ours is followed, up to it, by chaining handlers only |
| `CrashHandlers.InstalledTwice` | packages/sdk-react-native/cpp/salve_push_crash_handler.cpp:84-87 | installed twice in a row, or with a chaining crash reporter in between, it loops; with one that does not chain it does not |
| `CrashHandlers.CrashHandlerBridge.HandleUncaughtException` | packages/sdk-react-native/ios/SalvePushCrashHandlerBridge.mm:11-13 | once installed, an uncaught exception runs one same-session rollback, cut anywhere or not; uncut it settles the disk |
| `CrashHandlers.CrashHandlerBridge.Log` | packages/sdk-react-native/ios/SalvePushCrashHandlerBridge.mm:27-38 | a fatal message through any number of wrapped log functions runs one rollback per layer until one is cut short, which settles the disk as one rollback does when nothing fails; other levels leave it alone |
| `CrashHandlers.LayersRollBackAtMostOnce` | packages/sdk-react-native/ios/SalvePushCrashHandlerBridge.mm:27-38 | whatever is cut or fails unnoticed in any layer: together they roll back at most once, not at all when mounted or without a previous release, and touch neither crash marker nor bundles |
| `Migrate.EveryRunIsSafe` | server/internal/database/database.go:36-103 | in every interleaving of any number of instances, with failures, lost commits and restarts: applied is a growing prefix of the names, every effect has its row, the lock is never leaked, no insert conflicts, success means all applied |
| `Migrate.FreshRunsAreSafe` | server/internal/database/database.go:36-103 | the same from an unmigrated database and a directory listing: the names are exactly its files that end in ".sql", in the order of their characters, and every effect happens exactly once |
| `Migrate.NobodyIsStuck` | server/internal/database/database.go:36-103 | in every safe state an instance can go on unless it waits for a lock that another one holds, and then that one can |
| `Migrate.WalkedIff` | server/internal/database/database.go:60-66 | a name is walked if and only if some entry that is no directory has it and it is a stem followed by ".sql" |
| `Migrate.SortedNames` | server/internal/database/database.go:60-66 | the names walked are exactly the directory's files, not directories, whose names are some stem and ".sql", once each, and each name is a prefix of a later one or has the smaller character where they first differ |
| `Migrate.Database.CollectNames` | server/internal/database/database.go:60-66 | the filtering loop and the sort give exactly those names in that order |
| `Migrate.Database.Migrate` | server/internal/database/database.go:36-103 | one call, which may wait for the lock while the others do anything: its part is a sequence of its own steps of the system above, it releases the lock, succeeds only when every .sql file of the directory is applied, in character order, and succeeds when nothing of its own fails, also after earlier partial calls |
| `Migrate.Database.Step` | server/internal/database/database.go:68-100 | one turn of the loop moves on or fails, and moves on when the check and the commit succeed |
| `SalvePush.OnlyVerifiedBundlesAreInstalled` | packages/sdk-react-native/src/SalvePush.ts:17-63 | in every interleaving of configure, downloadUpdate, installUpdate and sync, against any server: each pair handed to the native module comes from one download that passed both checks under the configuration of the last configure call before it started |
| `SalvePush.LastConfigureWins` | packages/sdk-react-native/src/SalvePush.ts:18-20 | in every run the configuration in force is the argument of the last configure call, and none before the first |
| `SalvePush.NullTogether` | packages/sdk-react-native/src/SalvePush.ts:26-40 | the two module variables are null together at every await |
| `SalvePush.DownloadDuringInstallIsDiscarded` | packages/sdk-react-native/src/SalvePush.ts:37-39 | a run from the start in which a second verified download completes during an install, is cleared by it, and is never handed over |
| `SalvePush.DownloadIsHandedOverIff` | packages/sdk-react-native/src/SalvePush.ts:26-40 | in every run: after a download has stored its pair, a later installUpdate, whatever happened in between, hands over exactly that pair if and only if its id is not empty and every completed install and every other download in between is followed by another download of it |
| `SalvePush.UndisturbedDownloadIsHandedOver` | packages/sdk-react-native/src/SalvePush.ts:26-40 | in particular when no install and no download completes in between |
| `SalvePush.InstallFindsNothingIff` | packages/sdk-react-native/src/SalvePush.ts:32-36 | in every run: installUpdate hands nothing over if and only if every download so far was followed by the end of an install, or the last one has an empty id |
| `SalvePush.OverlappingSyncFindsNothing` | packages/sdk-react-native/src/SalvePush.ts:57-62 | of two overlapping syncs, the one whose download and install enclose the end of the other's install finds nothing to install |
| `SalvePush.SyncsOverlap` | packages/sdk-react-native/src/SalvePush.ts:57-62 | such an overlap is reachable from the start |
| `SalvePush.Facade.OnlyVerified` | packages/sdk-react-native/src/SalvePush.ts:17-63 | at any moment every pair handed over so far, and the pair that the next installUpdate would hand over, comes from one verified download |
| `SalvePush.Facade.FinishDownload` | packages/sdk-react-native/src/SalvePush.ts:28-29 | when the signature verifies under the key of the configuration it started with, both variables are set in one stretch; otherwise neither |
| `SalvePush.Facade.InstallUpdate` | packages/sdk-react-native/src/SalvePush.ts:32-37 | succeeds exactly with a configuration, a bundle and an id that is not empty, and then hands over the pair of the two variables, which one download verified |
| `SalvePush.Facade.FinishInstall` | packages/sdk-react-native/src/SalvePush.ts:37-39 | a successful native install clears both variables, a failed one keeps them |
| `SalvePush.Facade.DownloadUpdate` | packages/sdk-react-native/src/SalvePush.ts:26-28 | captures the configuration of the last configure call, or throws without one |
| `SalvePush.Facade.UpdatesArrived` | packages/sdk-react-native/src/SalvePush.ts:57-60 | sync goes on to download the first listed update under the configuration then in force, or ends when the answer is an error, empty or unsigned |
| `Update.AcceptedIffPasses` | packages/sdk-react-native/src/update.ts:46-73 | a download is accepted if and only if the server answered with bytes whose SHA-256 digest is the one that the announced text spells, and the signature of the five announced lines verifies under the configured key; then exactly those bytes are returned |
| `Update.FetchedIsTheFirst` | packages/sdk-react-native/src/update.ts:17-44 | the update is the first listed release, field by field; an error status and a first release without a signature are refused, and only an empty list means none |
| `Update.RefusalNamesTheCheck` | packages/sdk-react-native/src/update.ts:46-73 | which check refused a download: the status, the digest, or else the signature |
| `Update.AcceptedBundleWasReleased` | packages/sdk-react-native/src/update.ts:46-73 | against any server, with a key that signed only releases: the accepted bytes have the very digest of a release with this metadata, if and only if version, platform and channel have no newline |
| `Signing.Base64RoundTrip` | packages/protocol/src/signing.ts:24-39 | decoding an encoding gives the bytes back; the encoding has 4 * ceil(n / 3) characters |
| `Signing.GroupsEncode` | packages/protocol/src/signing.ts:24-30 | section 4 of RFC 4648: the k-th four characters spell the k-th 24 bits, six bits each, the highest first, with padding for a last group of one or two bytes |
| `Signing.CharIs` | packages/protocol/src/signing.ts:24-30 | Table 1 of RFC 4648 |
| `Signing.BareTextDecodesIff` | packages/protocol/src/signing.ts:32-39 | a text without white space and padding decodes if and only if all its characters are in the alphabet and their number does not leave a remainder of one |
| `Signing.BytesToBase64` | packages/protocol/src/signing.ts:24-30 | the loop keeps every byte: the result is the RFC 4648 encoding and decodes to the input |
| `Signing.Base64ToBytes` | packages/protocol/src/signing.ts:32-39 | the loop keeps every byte of what atob returns; an exception exactly when atob throws |
| `Signing.MessageParsesBackIff` | packages/protocol/src/signing.ts:41-43 | a parser reads the message back if and only if the first four fields contain no newline |
| `Signing.MessageIsInjective` | packages/protocol/src/signing.ts:41-43 | two such inputs with one message are equal |
| `Signing.NewlinesCollide` | packages/protocol/src/signing.ts:41-43 | a newline moved between two fields keeps the message |
| `Signing.SignedReleaseVerifies` | packages/protocol/src/signing.ts:58-78 | what signRelease makes verifies under the matching public key, through all base64 steps, whatever the fields |
| `Signing.HexCharacters` | packages/protocol/src/signing.ts:45-47 | every byte of a digest becomes its two digits in "0123456789abcdef", the high one first |
| `Signing.HexIff` | packages/protocol/src/signing.ts:45-47 | a text is the hex form of a digest if and only if it decodes to it, so two digests never share a text |
| `Signing.VerifiesIff` | packages/protocol/src/signing.ts:65-78 | verification holds if and only if key and signature are base64 and the scheme accepts the five fields joined by newlines |
| `Signing.VerifiedInputWasReleased` | packages/protocol/src/signing.ts:65-78 | if only released messages verify, an input that verifies is one of the released inputs, in all five fields, if and only if its first four have no newline |
| `Releases.EveryRowHasItsBundle` | server/internal/releases/releases.go:64-109 | with fresh ids, in every interleaving of calls and failures: each row's blob exists, is what was uploaded under that id, and has the row's digest and size |
| `Releases.PublishedRowsAreFinal` | server/internal/releases/releases.go:111-128 | a published row never changes again |
| `Releases.PublishReturnsOneRow` | server/internal/releases/releases.go:111-128 | in every run any two rows that Publish returned for one id are equal if and only if both or neither are published; a call whose own update met the row returns a published one |
| `Releases.PublishReturnsPublishedIff` | server/internal/releases/releases.go:111-128 | in every run the row that Publish returns is published if and only if the update of some call met the row before |
| `Releases.EarlyPublishReturnsUnpublished` | server/internal/releases/releases.go:115-127 | a run from the empty service in which a Publish that updates before the row is inserted and reads afterwards returns an unpublished row, and another call a published one |
| `Releases.RepeatedIdBreaksTheRow` | server/internal/releases/releases.go:75-107 | fresh ids are needed: a second upload under the id of a row overwrites its blob before its insert fails |
| `Releases.FirstIsNewest` | server/internal/releases/releases.go:154-168 | the head of a listing is published, has the channel, platform and runtime version of the request and a positive rollout, and is newest among all such rows; the listing is empty if and only if there is none |
| `Releases.ListedIff` | server/internal/releases/releases.go:154-168 | a row is in a listing if and only if it is published, has the three fields of the request and a positive rollout |
| `Releases.UuidGroups` | server/internal/releases/releases.go:112-114 | an id is five groups of lower-case hexadecimal digits, of 8, 4, 4, 4 and 12 |
| `Releases.Service.Create` | server/internal/releases/releases.go:64-109 | field by field: succeeds exactly when the announced text spells the SHA-256 digest of the bundle, the blob is stored and the client sees the insert accepted (ios or android, rollout 0 to 100); the row is there exactly when the insert was committed, seen or not, and then its blob is too |
| `Releases.Service.Publish` | server/internal/releases/releases.go:111-128 | the exact result for every failure of the update and the queries; published_at is set once unless the update was refused, even if the call fails, and nothing else changes |
| `Releases.Service.Get` | server/internal/releases/releases.go:139-152 | the row, ErrInvalidID, ErrNotFound or the error of the query |
| `Releases.Service.List` | server/internal/releases/releases.go:130-137 | every row once, newest first; or an error, exactly when the query or a scan fails, and never a part |
| `Releases.Service.ListUpdates` | server/internal/releases/releases.go:154-168 | a row is listed if and only if it is published, has the channel, platform and runtime version of the request and a positive rollout; once each, newest first; or an error, exactly when the query or a scan fails |
| `Releases.Service.ScanReleases` | server/internal/releases/releases.go:204-214 | the loop keeps every row in order, or fails as a whole at a scan error or at the final rows.Err |
| `Releases.Service.OpenBundle` | server/internal/releases/releases.go:170-180 | for a known id exactly the uploaded bytes, with the row's hash, unless the query or the store fails |
| `EndToEnd.CliReleaseIsAccepted` | packages/cli/src/release.ts:22-53 | what the CLI uploads passes both checks of the SDK under the matching public key, given that signing and verifying agree and no signature is empty |
| `EndToEnd.SyncHandsOver` | packages/sdk-react-native/src/SalvePush.ts:57-62 | an uninterrupted sync hands exactly the verified pair to the native module and leaves the variables clear |
| `EndToEnd.WhatWasSignedBoots` | packages/cli/src/release.ts:22-53 | with an honest server in any reachable state, and any further calls between the listing and the download: sync does nothing if no row is published with the channel, platform and runtime version of the configuration and rolled out, or one of the three is empty; otherwise no check rejects and after a crash-free relaunch the device boots byte for byte the file the CLI read for the newest such row |

## Left out

- HTTP handlers, multipart parsing, configuration and routing of the server: one-branch validation.
- The local and S3 storage backends: a map from keys to bytes whose Put may fail and leave part of the bytes.
- The JSON text of state.json: a record, or an unreadable part of one.
- JSON beyond flat objects of integers and booleans without white space or escapes: the only writer of crash.marker prints nothing else.
- The spellings of a UUID other than the canonical lower-case one, which uuid.Parse and the UUID column also accept.
- White space and padding that atob accepts are modelled, its error values are not: one kind of failure.
- Signals that interrupt a call of the handler itself, and a handler on a thread that races with an install beyond the end of the process: a signal ends the operation that is under way.
- Concurrent native calls on Android, whose writers also share state.json.tmp: serial orders are claimed for iOS only.
- Power loss: what a step wrote before the process ended is on disk.
- Postgres itself: a table is a map, a transaction one step, the advisory lock a mutex released with the connection.
- Generated bridges, JNI, Nitro and build files: no logic of their own.
- Rollout bucketing and telemetry: not implemented in the repository beyond the test for a positive percentage.
- Foreign signal handlers that do not return, or that change dispositions while they run: a foreign handler calls what it replaced, or nothing, and returns.
- What other migrating instances do between one instance's own steps while it holds the lock is not part of `Migrate.Database.Migrate`, since none of it can touch the tables; `Migrate.EveryRunIsSafe` covers every such interleaving.
- A failing read of the uploaded bundle in Create: the upload is given whole.
