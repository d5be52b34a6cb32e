# Volume writes, trust bundles and identities

This project models the parts of the CSI driver and its approver in which mistakes are silent: how
certificate files reach a mounted volume, how a changed trust bundle reaches every volume while
certificates are being renewed, and how the SPIFFE ID of a request is built by one process and checked
by another. Everything is proved for all inputs, all runs and all interleavings, unless a line below
says otherwise.

`dafny verify dfyconfig.toml` checks the whole project.

## What is modelled

**One volume.** `VolumeFs` is the data directory of a volume: root entries that are regular files, links
`n -> ..data/n` or directories, the `..data` link, timestamped directories, inodes with content and
group, and one `Call` for every system call that changes any of it. `InplaceStorage` and
`InplaceWriters` are the two writers as they stand: classes whose methods issue one call after the
other. Any call may fail on its own account, calls are recorded in a log, and failures are counted, so
that a contract can say that a write fails only for a reason. `InplaceSteps` says what one call may do
and what any run of calls keeps. `VolumeSpec` says what a completed write does and what holds over runs
that mix the two modes. `InplaceRewrite` looks at one file between the calls, `SharedFile` at one file
with several writers, `WriteOrder` and `PayloadNames` at the order of files and at their names. The
csi-lib writer is a contract (`VolumeSpec.AtomicOutcome`): a name is published only where the root entry
is absent or a link, and removing a superseded name fails if its link is gone.

**Two writers on one volume.** `FileSteps` is one file being written while others are at work,
`KeypairRace` a renewal and a trust bundle update interleaved call by call, in in-place mode, and
`RaceRefinement` shows that what the methods of the writers do are steps of that race and that its
interesting states are reached. `FullPayloadRace` is the same race in atomic-dir mode, where an update
has to read the keypair back.

**Trust bundles.** `RootCa` is the source and its broadcast, `CaRun` the select loop with its one-slot
channel, retry goroutines, passes and renewals as a transition system in which every CA file is written
chunk by chunk. `CaSync` says what holds when it comes to rest, `CaSettle` whether it can and which
renewals keep it from coming to rest in sync, `CaHarm` gives two runs in which one does, and
`SyncRefinement` shows that what the in-place writer does to a CA file are calls of that protocol.
`CaManager` is one pass over all volumes, `KeypairWriter` what a renewal writes, both on the view of all
volumes that `VolumeStore` gives.

**Identities.** `DriverRequests` builds a request, `Approver` decides on it, `DashedDomain` is the
encoding of domains as namespace names.

Standing preconditions, none of which the code checks: payload names are flat; certificate, key and
trust bundle have three different names; each inode has one directory entry; each user-visible link is
`n -> ..data/n`.

## Where the code and its comments differ

The model follows the code.

- internal/csi/driver/storage_inplace.go:225-227 says that a concurrent renewal can at worst write
  identical bytes to the trust bundle's file. A renewal reads the bundle some time before it writes it
  (internal/csi/driver/driver.go:578 and internal/csi/driver/driver.go:616) and can put an older bundle
  back for good (`CaHarm.StaleRenewalStrands`), or, if the two writes overlap, leave the beginning of one
  bundle and the rest of the other (`CaHarm.OverlappingRenewalMixes`). `CaSettle.RenewalSettlesExactly`
  says exactly when the protocol can still come to rest in sync after the end of a renewal's write, and
  `SharedFile.MixExactly` exactly which bytes two writers can mix.
- internal/csi/driver/storage_inplace.go:375-376 says that a payload name can never collide with the
  `..`-prefixed entries. `./..data` is accepted and does: `PayloadNames.DotSlashReachesDataLink`.
- internal/approver/evaluator/identity.go:100-103 says that the domain of a service account is converted
  to its dashed form. It is not; the dashing is a second function.

Three more properties that one might expect do not hold; each has its exact condition. The loop of `run`
can block for good (`CaRun.BlockedExactly` and `CaRun.BlockComesExactly`, reached in
`CaRun.TwoChangesBlock`). A renewal can be rolled back in atomic-dir mode
(`FullPayloadRace.PublishKeepsPairExactly`, `FullPayloadRace.RenewalRolledBack`). Two domains can share
a dashed name (`DashedDomain.RoundTripExactly`, `DashedDomain.OtherDomainsCollide`).

## Model

| member | source | states |
|---|---|---|
| InplaceWriters.InplaceWriteStorage.WriteFiles | internal/csi/driver/storage_inplace.go:162-215 | Success means that a pod reads exactly the payload, from every well-formed volume, a torn one included. Without a torn layout every call is permitted, up to a failure too, those on the certificate come last, and the state is exactly the pruned volume with each file settled. Failure has a cause, a refused name changes nothing, and writing what is there makes no call. |
| InplaceWriters.InplaceWriteStorage.WriteFile | internal/csi/driver/storage_inplace.go:228-271 | Success changes the one name and nothing else; whatever happens every other name reads as before; a torn layout is refused and never handed to the csi-lib writer. |
| InplaceWriters.AtomicDirStorage.WriteFiles | internal/csi/driver/storage_inplace.go:322-335 | Names are validated before anything is cleared; success means that the payload is what a pod reads. |
| InplaceWriters.InnerStore.WriteFiles | internal/csi/driver/storage_inplace.go:341-357 | The csi-lib writer by contract: a success is an outcome the contract allows, a failure may leave anything. |
| InplaceWriters.ClearInplaceArtifacts | internal/csi/driver/storage_inplace.go:358-388 | Every regular file and directory that is not the writer's own goes, every link and `..` entry stays; stopped anywhere the volume is still well-formed. |
| InplaceWriters.RemoveUnlistedFiles | internal/csi/driver/storage_inplace.go:414-457 | The root entries outside the payload go, with the file behind each link going first; nothing is done where nothing is obsolete. |
| InplaceWriters.BrokenAtomicLayout | internal/csi/driver/storage_inplace.go:573-621 | Reports exactly the two shapes that writing through the links cannot repair. |
| InplaceWriters.ValidatePayloadNames | internal/csi/driver/storage_inplace.go:477-485 | Succeeds exactly if every name is accepted. |
| InplaceWriters.EnsureDataDirGroup | internal/csi/driver/storage_inplace.go:773-791 | The directory has the group asked for, and is changed only if it had another. |
| InplaceWriters.WriteOrdered | internal/csi/driver/storage_inplace.go:208-212 | The loop over the files: the calls so far are permitted, and from the first one on the certificate on they are all on the certificate with every other file in place. |
| InplaceStorage.WriteFileInPlace | internal/csi/driver/storage_inplace.go:625-698 | On all three paths, created, identical and rewritten, exactly this file ends with the data and the group; the calls are a creation and a rewrite, a rewrite, or a change of group; nothing is done if nothing differs. |
| InplaceStorage.WriteContentsInPlace | internal/csi/driver/storage_inplace.go:702-742 | Chunks of any size from the start, then the cut, then mode and group of a new file; no other file, link or directory changes, even when a call fails. |
| InplaceStorage.EnsureFileGroup | internal/csi/driver/storage_inplace.go:747-767 | The file's group becomes the one asked for by at most one call, and by none if it is right. |
| InplaceStorage.Volume.Open | internal/csi/driver/storage_inplace.go:662-678 | Opening for writing without truncation follows links, keeps an existing inode and creates the file behind a dangling link. |
| InplaceSteps.StepKeeps | internal/csi/driver/storage_inplace.go:443-453 | Every call of an in-place write, whatever happens in between, keeps the layout coherent and healthy, keeps the inodes of the names the write spares, and changes what is read at its own file only. |
| InplaceSteps.HealthyAtEveryCall | internal/csi/driver/storage_inplace.go:553-621 | At every call of every run of in-place writes the layout is coherent and healthy; once whole, no payload ever finds it broken. |
| InplaceSteps.WatchSurvives | internal/csi/driver/storage_inplace.go:152-161 | Over runs of any length that mix both writes, failures included, a name present in every full payload keeps its inode from any moment to any later one. |
| InplaceSteps.RunExtends | internal/csi/driver/storage_inplace.go:208-212 | What the writer's methods record, to the end or up to a failure, extends the run of all earlier writes. |
| InplaceSteps.WriteKeeps | internal/csi/driver/storage_inplace.go:162-215 | One write, stopped anywhere, keeps the invariant and the inodes it spares, and names it does not touch read the same. |
| InplaceSteps.CertChangeMeansOthersDone | internal/csi/driver/storage_inplace.go:528-535 | Once anything read at the certificate's name differs from before, every other payload file holds its new content and no later call is on another file. |
| VolumeSpec.InplaceWriteView | internal/csi/driver/storage_inplace.go:149-161 | A completed in-place write leaves exactly the payload to read, on the inodes its names had, with the directory and every file in the group asked for. |
| VolumeSpec.InplaceWriteIdempotent | internal/csi/driver/storage_inplace.go:648-660 | Repeating a write changes nothing at all: content, inodes, groups, entries. |
| VolumeSpec.RetryDelivers | internal/csi/driver/storage_inplace.go:204-212 | From any state in which any run of in-place writes stops, the next completed write gives exactly its payload and keeps the inode of every payload name that still resolves. |
| VolumeSpec.ModeSwitching | internal/csi/driver/storage_inplace.go:322-335 | Over every run of successful writes of either mode, from any well-formed volume, what can be read after each write is exactly what that write promises. |
| InplaceWriters.OutcomePerforms | internal/csi/driver/storage_inplace.go:162-215 | Every success of the writer's method is one write of such a run. |
| VolumeSpec.AtomicDirView | internal/csi/driver/storage_inplace.go:337-357 | After clearing, a success of the csi-lib writer is visible: the volume reads as the payload and the layout is healthy. |
| VolumeSpec.UnclearedFileStaysStale | internal/csi/driver/storage_inplace.go:341-347 | Without clearing, a name left as a regular file goes on reading its old content after a successful atomic write. |
| VolumeSpec.AtomicWritePossible | internal/csi/driver/storage_inplace.go:402-406 | The csi-lib writer can succeed on a payload if and only if every superseded name still has its root entry. |
| VolumeSpec.RollbackPossible | internal/csi/driver/storage_inplace.go:397-406 | Wherever in-place writing stopped, the first atomic-dir write after a rollback can succeed. |
| VolumeSpec.LinkFirstBreaksRollback | internal/csi/driver/storage_inplace.go:443-453 | Removing the link before the file behind it would make every atomic-dir payload without that name impossible. |
| InplaceRewrite.RewriteIsGradual | internal/csi/driver/storage_inplace.go:707-720 | With any chunking, a reader sees a prefix of the new data with the old tail or the new data, never an empty file between two that are not, and exactly the data once the last modify event is out. |
| SharedFile.IdenticalWritersAgree | internal/csi/driver/camanager.go:170-177 | Any number of writers of the same bytes to one file, chunked and interleaved in any way, leave those bytes once one has finished and ever after. |
| SharedFile.AgreeingWriters | internal/csi/driver/storage_inplace.go:702-720 | Writers whose bytes differ at most by zeros at the end never spoil what another has written, and each has left exactly its own bytes at the moment it finishes. |
| SharedFile.MixExactly | internal/csi/driver/storage_inplace.go:648-720 | If a read may fail, so that a writer opens a file without knowing what it holds, two writers can by some schedule leave bytes that neither wrote if and only if theirs are of equal length and differ in two places, or of different length and differ when the shorter is padded with zeros. If no read fails, they can if and only if that holds and it is not the case that the file already holds the longer bytes and the shorter are their beginning. |
| WriteOrder.OrderedWriteNames | internal/csi/driver/storage_inplace.go:536-551 | The names are a permutation of the payload's, sorted, with the certificate last. |
| WriteOrder.LessExactly | internal/csi/driver/storage_inplace.go:544 | Sorted means ascending: a name comes before another if it is a proper beginning of it, or has the smaller character where the two first differ. |
| WriteOrder.WriteOrderUnique | internal/csi/driver/storage_inplace.go:528-551 | There is only one such order, however the map is iterated. |
| PayloadNames.AcceptedExactly | internal/csi/driver/storage_inplace.go:494-526 | Exactly which names are accepted, stated on their path elements and with the limits in numbers. |
| PayloadNames.FlatAcceptedExactly | internal/csi/driver/storage_inplace.go:494-526 | A flat name is accepted if and only if it is not empty, not `.`, at most 255 characters long and does not start with `..`. |
| PayloadNames.AcceptedLandsBelow | internal/csi/driver/storage_inplace.go:472-476 | Every accepted name joins to a path strictly below the data directory. |
| PayloadNames.AcceptedRootEntry | internal/csi/driver/storage_inplace.go:459-470 | The root entry of an accepted name is its first element that says something; it is reserved if and only if the name starts with `.` and that element is. |
| PayloadNames.DotSlashReachesDataLink | internal/csi/driver/storage_inplace.go:521-523 | The accepted name `./..data` occupies the `..data` link itself. |
| KeypairRace.NoKeypairRollback | internal/csi/driver/camanager.go:169-177 | Under every interleaving of renewal and update calls, while the last recorded renewal is the latest one, every file of it but the trust bundle reads as written. |
| KeypairRace.RaceInvariant | internal/csi/driver/camanager.go:169-203 | What every single call of either actor keeps, the removals of a prune included, which go by a listing made earlier. |
| KeypairRace.SameBundleHolds | internal/csi/driver/camanager.go:176-177 | While both carry the same bundle, a pod reads exactly that bundle from the moment the first of them is past its cut, however their writes interleave. |
| FileSteps.FileNextIsShared | internal/csi/driver/storage_inplace.go:642-720 | Each step on a file is one call of a writer that shares it, or changes nothing about file and writer. |
| FileSteps.WriterTakesSteps | internal/csi/driver/storage_inplace.go:702-742 | The calls the writer makes on an open file are steps of the race. |
| RaceRefinement.FileFollows | internal/csi/driver/storage_inplace.go:625-698 | All that the writer's method does to one file, comparing and opening included, to the end or up to a failure, is a series of steps of the race. |
| RaceRefinement.PruneFollows | internal/csi/driver/storage_inplace.go:425-454 | The calls the prune makes for the entries it listed are steps of the race, one by one, and when all are dealt with nothing is left to remove. |
| RaceRefinement.RenewalCanComplete | internal/csi/driver/driver.go:615-625 | From every reachable state between renewals, wherever an update stands, a renewal of any payload can be completed and recorded. |
| FullPayloadRace.PublishKeepsPairExactly | internal/csi/driver/camanager.go:205-227 | After an update publishes, the keypair on disk is the last renewal's if and only if no renewal has landed since the update read the certificate. |
| FullPayloadRace.RenewalBetweenReadsTearsPair | internal/csi/driver/camanager.go:208-218 | A renewal between the two reads leaves a certificate and a key that no renewal issued together. |
| FullPayloadRace.PublishedPairIssuedExactly | internal/csi/driver/camanager.go:208-224 | The certificate and key an update publishes were issued together by some renewal if and only if none landed between the two reads. |
| FullPayloadRace.OnlyRenewalRepairs | internal/csi/driver/camanager.go:169-177 | A lost keypair stays lost through any number of updates until the next renewal. |
| FullPayloadRace.RenewalRolledBack | internal/csi/driver/camanager.go:205-227 | The rollback as a run of four events, for every pair of payloads with different certificates. |
| RootCa.File.ReloadCertificatesPEM | internal/csi/rootca/file.go:119-140 | A failed or unchanged read does nothing; a changed one replaces the bundle and starts one sender for every subscriber. |
| RootCa.File.Subscribe | internal/csi/rootca/file.go:151-157 | A new subscriber with nothing on its way; the others are left alone. |
| RootCa.Memory.Take | internal/csi/rootca/memory.go:49-56 | Every bundle received is stored and announced to every subscriber, a repeated one too. |
| RootCa.BroadcastConserved | internal/csi/rootca/file.go:129-139 | For every subscriber and run, events received plus events on their way equal the content changes since it subscribed. |
| RootCa.MemoryConserved | internal/csi/rootca/memory.go:49-56 | The same for memory, counting every bundle given, which is at least every change. |
| RootCa.EventsBringNews | internal/csi/rootca/file.go:142-157 | After its r-th event a subscriber reads a bundle at least r changes newer than at subscription, and exactly r if nothing is on its way. |
| CaRun.TokensConserved | internal/csi/driver/camanager.go:116-146 | Before cancellation, events received plus failed passes equal passes started plus tokens in the slot, in the loop and with retries. |
| CaRun.TokensFromStart | internal/csi/driver/camanager.go:116-146 | That balance over every run of a loop just started, spelt out. |
| CaRun.TokenRemains | internal/csi/driver/camanager.go:132-146 | After a failed pass or an event taken a token is outstanding until the next pass starts. |
| CaRun.BlockedExactly | internal/csi/driver/camanager.go:119-127 | The loop stays where it is whatever anybody does, cancelling included, if and only if it forwards an event while the slot is full, or has quit. |
| CaRun.PassMoves | internal/csi/driver/camanager.go:162-232 | A pass works on one volume at a time: it takes up a listed one with the bundle of the moment, drops it only when done with it, and ends with none left or by failing. |
| CaRun.FileChanges | internal/csi/driver/camanager.go:180-230 | A CA file is changed only by the pass that has it in hand, by its volume's renewal, or by the volume's coming and going. |
| CaRun.QuitsOnlyCancelled | internal/csi/driver/camanager.go:118-122 | Over every run of a loop just started, it has quit only if it was cancelled. |
| CaRun.QuitsAtSelect | internal/csi/driver/camanager.go:119-122 | The step that quits is taken at the select, after cancelling. |
| CaRun.CancelQuits | internal/csi/driver/camanager.go:119-122 | The loop can be cancelled at any time, and can then quit from its select. |
| CaRun.RetriesQuit | internal/csi/driver/camanager.go:134-143 | After cancelling, every retry that waits for its timer can end, without anything else happening. |
| CaRun.TwoChangesBlock | internal/csi/driver/camanager.go:124-127 | Two changes in quick succession, each to other bytes, can bring every freshly started loop there. |
| CaRun.BlockComesExactly | internal/csi/driver/camanager.go:124-125 | After taking an event the loop can get blocked before it forwards it if and only if the slot or a retry holds a token. |
| CaRun.CalmNeverBlocks | internal/csi/driver/camanager.go:116-146 | The block is never reached over a run in which events are taken only while slot and retries are empty. |
| CaSync.QuiescentIsSynced | internal/csi/driver/camanager.go:118-150 | Subscribed with all written CA files in sync and with harmless renewals, whenever no sender, token, retry or pass is outstanding every listed CA file that has been written, and is not being written by a renewal, holds the current bundle. |
| CaSync.EveryVolumeHoldsBundle | internal/csi/driver/camanager.go:118-150 | Where every volume had its CA file at the start and none is registered, that is every listed volume that no renewal is writing. |
| CaSync.SettlesExactly | internal/csi/driver/camanager.go:109-116 | There is no initial pass: every rest a start can come to is in sync if and only if all CA files that have been written are in sync when it subscribes. |
| CaSettle.CanSettleExactly | internal/csi/driver/camanager.go:118-150 | Where the invariant holds, the loop and its retries left to themselves can come to rest with every volume in sync if and only if the loop is not blocked for good. |
| CaSettle.RenewalSettlesExactly | internal/csi/driver/driver.go:576-616 | After the end of a renewal's write, complete or not, the protocol can come to rest and every rest is in sync if and only if the loop is not blocked for good, and one of these holds: another pass is due, the present pass has yet to open the file, it has it open with all it wrote still in place, or the file is right. The same with and without failing reads. |
| CaSettle.CurrentBundleIsHarmless | internal/csi/driver/camanager.go:170-177 | A renewal whose bundle is still the current one does no harm, however its write and the pass's overlap. |
| CaHarm.StaleRenewalStrands | internal/csi/driver/driver.go:576-616 | A run without a failing read in which a renewal puts an old bundle back with nothing left to correct it. |
| CaHarm.OverlappingRenewalMixes | internal/csi/driver/storage_inplace.go:648-720 | For any two bundles that differ in two places, a run without a failing read in which the two writes overlap between these places and the volume keeps the beginning of the old bundle and the rest of the new one, neither of the two, with nothing left to correct it. |
| SyncRefinement.WriterIsRenewal | internal/csi/driver/storage_inplace.go:625-698 | All that the writer's method does to the CA file, to the end or up to a failure, is a series of a renewal's calls in the protocol, which then holds what a pod reads. |
| SyncRefinement.WriterIsPass | internal/csi/driver/storage_inplace.go:625-698 | The same for the calls of the pass. |
| CaSync.SourceDrives | internal/csi/rootca/file.go:129-139 | Every event at a source of either kind is a step, or no step, of the protocol. |
| CaManager.CaManager.UpdateRootCAFiles | internal/csi/driver/camanager.go:155-233 | After success the CA file of every listed volume is the bundle read for it, which may change from volume to volume, and what was up to date is left alone; failure is a fault, a write refused or a keypair missing, and leaves at most one volume in between; in single-file mode no other file of any volume ever changes. |
| CaManager.CaManager.UpdateVolume | internal/csi/driver/camanager.go:180-230 | One volume's turn in either mode, and why it can fail. |
| CaManager.TurnLaws | internal/csi/driver/camanager.go:180-230 | A turn makes the volume up to date, a second one does nothing, certificate and key keep their content. |
| CaManager.OthersSurviveExactly | internal/csi/driver/camanager.go:220-227 | In atomic-dir mode another file survives a turn if and only if the turn leaves the volume alone. |
| KeypairWriter.KeypairWriter.WriteKeypair | internal/csi/driver/driver.go:548-626 | The metadata is written only once the whole payload is on the volume; what cannot be encoded changes nothing; a failure is a fault, a refused write or something that cannot be encoded; no other volume is touched. |
| KeypairWriter.KeypairWriter.BuildPayload | internal/csi/driver/driver.go:572-613 | A payload is built if and only if everything in it can be encoded. |
| KeypairWriter.BuildableExactly | internal/csi/driver/driver.go:548-613 | That is: the key, and where a keystore is configured a chain with a leaf and its encoding for each keystore that has a name. |
| KeypairWriter.PickLeaf | internal/csi/driver/driver.go:668-678 | The first certificate that is not a CA, or the first with a warning, or none of an empty chain. |
| KeypairWriter.PayloadHolds | internal/csi/driver/driver.go:572-613 | With names apart, the payload holds this chain and key, the bundle exactly if one is configured, and nothing but the keystores besides. |
| KeypairWriter.KeystoresHold | internal/csi/driver/driver.go:581-613 | With all names apart, exactly the keystores that are enabled and have a name are there, each encoded for the leaf of the chain. |
| DashedDomain.DashedIsOnePass | internal/approver/evaluator/identity.go:112-116 | The two replacements equal one pass over the characters, whatever the domain. |
| DashedDomain.DashedCharacters | internal/approver/evaluator/identity.go:112-116 | Character by character: a dash is doubled, a dot becomes a dash, all else stays. |
| DashedDomain.RoundTripExactly | internal/approver/evaluator/identity.go:112-116 | The encoding can be undone if and only if no dot stands directly before a dot or a dash. |
| DashedDomain.DashUndash | internal/approver/evaluator/identity.go:112-116 | Every dot-free name is the encoding of a domain that can be recovered from it. |
| DashedDomain.PlainDomainsDiffer | internal/approver/evaluator/identity.go:76-78 | Distinct domains of that kind never have the same dashed name. |
| DashedDomain.OtherDomainsCollide | internal/approver/evaluator/identity.go:76-78 | Every other domain shares its dashed name with one of them. |
| Approver.ApprovedExactly | internal/approver/evaluator/evaluator.go:86-118 | A request of a service account is approved if and only if it is well encoded, signed and extended, has the required duration, is not for a CA, has exactly the four usages in any order, and carries one of the two IDs of the account, spelt out; with multi-tenancy the namespace must also be the account's domain, dashed, or have an annotation that says so. |
| Approver.ApprovedAccounts | internal/approver/evaluator/evaluator.go:113-115 | No request of anybody else is approved. |
| Approver.PassesExactly | internal/approver/evaluator/identity.go:39-74 | When a service account passes: scheme, one of the two IDs it may claim, and the tenancy rule. |
| Approver.OnlyAccountsPass | internal/approver/evaluator/identity.go:40-43 | Only the username of a service account ever passes. |
| Approver.SharedIdsExactly | internal/approver/evaluator/identity.go:51-64 | Two service accounts can pass for one ID if and only if they share the namespace, are equal or differ by its domain prefix, and, with multi-tenancy, both belong to it. |
| Approver.IdDetermines | internal/approver/evaluator/identity.go:51 | The ID determines namespace and name. |
| Approver.SlashesConfuse | internal/approver/evaluator/identity.go:51 | With a slash in a namespace it would not. |
| Approver.UnannotatedTenant | internal/approver/evaluator/identity.go:76-98 | Without an annotation that speaks for it, a namespace admits accounts of one domain only, the one its name decodes to. |
| DriverRequests.GenerateRequest | internal/csi/driver/driver.go:406-544 | The loops and reassignments compute the request that the other lemmas are about; the annotation is the ID in the first URI. |
| DriverRequests.RequestedExactly | internal/csi/driver/driver.go:435-465 | There is a request if and only if the token names an account and a namespace, and a domain is found in the account's name or, if asked for, in the namespace's annotation. |
| DriverRequests.RequestSpelt | internal/csi/driver/driver.go:445-544 | What it asks for, spelt out from configuration and token: the ID, the instance URI, the common name, no CA, the duration and the four usages. |
| DriverRequests.HostsExactly | internal/csi/driver/driver.go:480-511 | A host name is asked for if and only if it is a plain or wildcard name for one of the DNS domains, the pod's own name with its subdomain, or one of the two names of its service in the cluster zone. |
| DriverRequests.DriverRequestApproved | internal/approver/evaluator/evaluator.go:86-118 | On both ways of finding the domain the driver's request is approved without multi-tenancy, and with it if and only if the dashed domain is the namespace or the namespace's annotation allows it. |
| DriverRequests.AskedForExactly | internal/csi/driver/driver.go:445-465 | The IDs the driver asks for are exactly those claims of the account that name a domain. |
| DriverRequests.DomainServiceSplit | internal/csi/driver/util.go:60-70 | Domain and service make up the account name, the service has no dot, and the approver finds the same domain; of an account without a dot it takes the whole name. |
| DriverRequests.AthenzHostsExactly | internal/csi/driver/driver.go:481-490 | The Athenz host names are one plain and one wildcard name for every DNS domain, and no others. |
| DriverRequests.AthenzHostsOnce | internal/csi/driver/util.go:72-79 | None of them is there twice. |
| DriverRequests.AppendUnlessPresent | internal/csi/driver/util.go:72-79 | The name is added at the end, or the list is left as it is if the name is there. |

## Left out

- InplaceWriters.InplaceWriteStorage.WriteFiles: nested payload names are not modelled, because no payload of this driver is nested; so the contents of subdirectories, which pruning leaves behind, and the making of parent directories are not.
- InplaceWriters.InplaceWriteStorage.WriteFile: the same, for its one name.
- InplaceWriters.AtomicDirStorage.WriteFiles: the same; and it starts from a well-formed volume, not from whatever a failed csi-lib write may have left.
- InplaceWriters.RemoveUnlistedFiles: the same as for `WriteFiles`.
- InplaceStorage.WriteFileInPlace: the same; the parent is the data directory.
- InplaceWriters.ClearInplaceArtifacts: starts from a well-formed volume.
- InplaceWriters.BrokenAtomicLayout: a `..data` that is a real directory, and links of any other form than `n -> ..data/n`, are not modelled.
- InplaceWriters.InnerStore.WriteFiles: after a failure of the csi-lib writer any state is possible, so nothing is stated about the writes that follow one until the volume is well-formed again.
- InplaceSteps.HealthyAtEveryCall: a run may interleave writes only as far as no removal races the creation of the same name; for a renewal and a trust bundle update `KeypairRace` shows that none does.
- KeypairRace.NoKeypairRollback: starts from a layout in which no link dangles past a missing `..data`, as every volume written by either mode is.
- CaSync.QuiescentIsSynced: a volume has at most one renewal at a time, and of its files only the CA file is looked at; a renewal that gives up in atomic-dir mode is taken to leave that file as it was, although a failed csi-lib write may leave anything.
- RootCa.BroadcastConserved: which of several blocked senders a receive releases makes no difference and is not modelled.
- DriverRequests.GenerateRequest: `url.Parse` followed by `String` is taken to be the identity, as it is on names allowed in Kubernetes, and both URIs to parse; subject fields other than the common name are left out.
- PayloadNames.AcceptedExactly: lengths are counted in characters, not in bytes.
- File modes, ownership other than the group, `umask`, durability of `fsync`, `RemoveAll` that removes only part of a tree.
- Reading the group from metadata (`fsGroupForMetadata`): the result, or that it is malformed, is a parameter.
- Certificate, key, keystore and token encodings: their results are parameters.
- `validateCSRExtensions` and the signature check of a request: their results are fields of the request.
- `validateIdentity` on a request without any URI, on which the code panics.
- The Kubernetes API: the annotations of a cluster are a map in which a namespace that cannot be read has no entry.
- The file watcher, timers, logging, metrics, command line, deployment, refresh intervals, the approver's controller.
- Liveness of `run`: it has none without further assumptions.
