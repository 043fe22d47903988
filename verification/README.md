# Strategon: verified models of the core

Dafny models of seven parts of Strategon (a control plane and machine agent that
deploys trading strategies), with proofs about every run, every interleaving or
every input.

| part | files | what is proved |
|---|---|---|
| Shared-file store of the agent | `SharedDisk`, `SharedStore`, `SharedStoreLaws`, `SharedWorkers` | for which names live links always resolve to blobs with the right hash, exactly; interleaved fetch workers and collections; the collector's survivors, exactly |
| Release store of the agent | `Releases`, `ReleaseStore`, `ReleaseLaws` | what a download leaves on success and on failure; what an accepted image holds; the release collector, exactly; install-order ranking over runs |
| OCI image selection | `ImageIndex` | the search with a shared visited set agrees with the plain search; termination; what "no match" means |
| Fencing lease | `LeaseClient`, `LeaseServer`, `LeaseExclusion` | refinement to one absolute deadline; mutual exclusion of clients through the lease service under the assumptions below; exact margins |
| API token cache | `TokenCache`, `TokenRuns` | coherence of two indexes with the store over every interleaving; revoked tokens are never found; when last-used times are lost, exactly |
| Paths, mounts, archives | `Paths`, `Mounts`, `TarPaths` | Go's lexical `path.Clean`; string tests mean component relations |
| Secrets | `SecretRefs`, `Secrets`, `SecretRuns` | references round-trip; key selection under rotation; never a wrong value |

`Prelude`, `Digests` and `Retention` hold what these share. Where the program
changes things step by step the model does too: classes with mutable fields,
loops with invariants, in-place array algorithms. Each such method is proved to
leave what a function of the old state says, and the laws are about those
functions. Map and directory iteration is an arbitrary choice at every turn, so
a result holds for every order. SHA-256 is an arbitrary function to hex digests
(`Digests.HashFn`), a parameter of every statement that needs one.
Authenticated encryption is ideal: a blob records the key that sealed it and
opens only under that key.

Inputs from outside are parameters: how a fetch ends and what it wrote, whether
a rename succeeds, what the process walk reports, clock readings, replies of the
store and of the lease service.

`dafny verify dfyconfig.toml` checks everything.

## Assumptions

- A digest reference names one directory: without its `sha256:` prefix it is a
  plain path component.
- `GCShared` is called with every linked name in `keepNames`;
  `SharedStoreLaws.GCSafeIffLinkedNamesKept` shows that this is exactly what is
  needed.
- Shared names are any valid names. The validator (internal/sharedfile/name.go:17-35)
  lets names with the suffixes of temporary paths through, and their links can
  break; `SharedStoreLaws.NameIsSafeIff` says for which names exactly.
- No process is started on a release while it is downloaded: the reconciler starts
  none (internal/agent/reconciler/reconciler.go:322-340), so a rootfs unpacked in a
  call, a new directory, is not in use in it.
- Two running fetch workers do not share a digest and a name. The reconciler can
  break this: it starts a new worker when a cancelled one may still be running,
  and accepts its result by digest (internal/agent/reconciler/shared.go:63-68,
  236-238). `SharedWorkers.SharingBreaks` shows what follows.
- Fresh token ids and hashes do not occur in the store, and the token cache is
  loaded once, at start.
- Monotonic clocks and the control plane's clock do not go back. Mutual
  exclusion of leases is between different machines, and the holder does not
  re-acquire with a TTL that brings the recorded expiry forward
  (`LeaseExclusion.CoversIffKeepsExpiry`, `ShorterTtlBreaksExclusion`).
- The lease service takes the machine of a renewal from its record and compares
  the caller only when a client certificate is presented
  (internal/controlplane/lease/server.go:62-99). Mutual exclusion therefore
  assumes certificates, or fresh lease ids and clients that renew only with ids
  sent to them, as the client does (sdk/lease/client.go:219-231).
  `LeaseExclusion.RenewalFencesIff`, `ForeignRenewalBreaksExclusion` and
  `ReusedIdBreaksExclusion` show that this is needed.

## Where code and documentation differ

The models follow the code.

- sdk/lease/client.go:40-42 describes the clock-jump test as wall time against
  monotonic time. Both readings come from `time.Now()`, so `Sub` uses their
  monotonic parts, and the test compares only the delays between two readings
  (`LeaseClient.JumpTestComparesReadDelays`).
- sdk/lease/client.go:54 calls the anchor the time of the last grant; the code
  sets it at the first grant and keeps it.
- internal/agent/artifact/gc.go:53-55 promises the kept versions and up to
  `ReleaseRetention` others; the code takes the kept versions on disk out of
  that number.
- internal/agent/artifact/artifact.go:150-154 promises that a failed download
  of an unverified release removes its directory; the code keeps it when the
  rootfs is in use (`ReleaseLaws.InUseReleaseMayBeLeftUnverified`).
- internal/agent/artifact/artifact.go:242-243 takes the digest in oci.json for that
  of the unpacked image. If the agent dies after the rename of a new rootfs
  (internal/agent/artifact/oci_image.go:70) and before its metadata is written
  (internal/agent/artifact/artifact.go:236), a version that had metadata of another
  archive is accepted for the old digest (`ReleaseLaws.DeathMixesImage`).
- internal/auth/tokens.go:284 says that a flush writes the dirty times and clears
  them. The flush at shutdown (cmd/controlplane/main.go:258-264) does not wait for
  the flusher started at line 134, whose store call runs under the context that has
  just ended, and nothing is flushed afterwards: uses that only the flusher's batch
  has are lost when that call fails, and an older time can be left over a newer one
  (`TokenRuns.ShutdownPersistsNewestIff`, `FailedFlusherLoses`).
- internal/volume/name.go:69 speaks of parents; the root is not taken for one
  (`Mounts.OverlapAgreesIff`). `ValidateMounts` never compares the root.
- The configured id of the previous wrap key never decides whether a row opens
  (`Secrets.OpensExactly`).

## Model

| member | source | states |
|---|---|---|
| `SharedStore.Manager.EnsureSharedFile` | internal/agent/artifact/shared.go:50-94 | Fetches into a sibling partial file, verifies and renames; whatever way the fetch ends, the disk and the outcome are those of `SharedDisk.AfterEnsure`, whose laws follow below. |
| `SharedStore.Manager.FetchAndInstall` | internal/agent/artifact/shared.go:70-91 | The blob path is written only by the final rename of verified bytes; every other end of the fetch removes the partial file, except that a dying process leaves it. |
| `SharedStore.Manager.SwitchSharedTo` | internal/agent/artifact/shared.go:124-148 | Temporary link and rename give `SharedDisk.AfterSwitch`, with its three endings. |
| `SharedStore.Manager.RemoveSharedLink` | internal/agent/artifact/shared.go:166-175 | Removes the link of a valid name, present or not, and nothing else; a link that cannot be removed stays and is reported. |
| `SharedStore.Manager.GCShared` | internal/agent/artifact/shared.go:215-314 | The step-by-step collection leaves exactly the declaratively defined disk `SharedDisk.AfterGC`, for every order in which directories, files and names are visited. |
| `SharedStore.Manager.GroupByName` | internal/agent/artifact/shared.go:233-265 | The listing loop groups every blob, and no sidecar or partial, under its name with its install time. |
| `SharedStore.Manager.KeepSet` | internal/agent/artifact/shared.go:277-302 | Sorting and then filling the keep set up to `retention` members selects exactly the live digest and the newest others within the budget, also when the live digest has no blob. |
| `SharedStore.Manager.CollectName` | internal/agent/artifact/shared.go:266-309 | One turn of the loop over names removes exactly the doomed blobs of that name, with their sidecars and partials. |
| `SharedStore.Manager.RemoveStoreEntry` | internal/agent/artifact/shared.go:352-358 | Removes the three files of one blob, and the directory only if it is then empty. |
| `SharedStore.Manager.SweepPartials` | internal/agent/artifact/shared.go:316-350 | Leaves the files that are neither partials nor orphan sidecars, whatever the names, and the directories that hold a file. |
| `SharedStore.PrefixIsChosen` | internal/agent/artifact/shared.go:289-302 | Stopping when the keep set is full or the list ends picks the set-level choice "live or among the newest others". |
| `SharedStore.SurvivesIsSwept` | internal/agent/artifact/shared.go:310-350 | For every file name: what the sweep leaves after the doomed blobs are gone is what the declarative description keeps. |
| `SharedStore.SweepFinishes` | internal/agent/artifact/shared.go:310-350 | Deleting the doomed blobs and then sweeping yields the specified disk. |
| `SharedDisk.MatchNamesDirectory` | internal/agent/artifact/shared.go:29-32 | A case-insensitive digest match puts the blob in the directory named by its own hash. |
| `SharedDisk.BaseFiles` | internal/agent/artifact/shared.go:20-20 | Three files and no others belong to a blob: itself, its sidecar, its partial. |
| `SharedStoreLaws.LiveLinksResolve` | internal/agent/artifact/shared.go:42-175 | Over every run of ensure, switch, remove and collect, with failing, cancelled and killed steps and any other names in use, the link of a safe name points at a present blob of that name whose hash is the digest in the link. |
| `SharedStoreLaws.RunIsSound` | internal/agent/artifact/shared.go:50-314 | The invariant behind it, per safe name: its blobs are in the directories of their hashes and its link resolves. |
| `SharedStoreLaws.NameIsSafeIff` | internal/sharedfile/name.go:14-35 | For every valid name: its link resolves to its own blob in every run from the empty store if and only if no temporary path of another valid name, and no suffix the sweep looks for, collides with it. |
| `SharedStoreLaws.SafeNamesAre` | internal/sharedfile/name.go:17-35 | Which valid names those are: the ones without a reserved suffix, and seven whose stem is no valid name. |
| `SharedStoreLaws.BreakingRun` | internal/agent/artifact/shared.go:61-148 | For every other valid name a run from the empty store that breaks its link: collected as a partial or sidecar, or left over as a temporary link. |
| `SharedStoreLaws.GCSafeIffLinkedNamesKept` | internal/agent/artifact/shared.go:206-214 | From a sound state a collection keeps the link of a safe name resolving if and only if `keepNames` contains the name (or its suffix keeps it off the list). |
| `SharedStoreLaws.EnsureInstallsOrChangesNothing` | internal/agent/artifact/shared.go:42-94 | Success means the verified blob is present; a failure leaves the blob path as it was; no path but the blob, its partial and its sidecar is touched. |
| `SharedStoreLaws.EnsureDoneIff` | internal/agent/artifact/shared.go:50-94 | EnsureSharedFile succeeds exactly when the name is valid and a blob with the digest is there already, or a completed fetch left one and the rename worked. |
| `SharedStoreLaws.EnsureInstallsWhatWasFetched` | internal/agent/artifact/shared.go:70-93 | A fresh install is what the fetch left, in the directory of its digest. |
| `SharedStoreLaws.EnsureFailureMeans` | internal/agent/artifact/shared.go:70-91 | Each reported failure says what happened. |
| `SharedStoreLaws.EnsureThenSwitchDeploys` | internal/agent/artifact/shared.go:50-163 | After a successful ensure, switching makes the requested digest the running one, behind a blob that has it. |
| `SharedStoreLaws.EnsureRanksByInstall` | internal/agent/artifact/shared.go:61-93 | Re-ensuring a verified blob changes no file and no rank; a fresh install ranks by the recorded time; only a dying process leaves a partial. |
| `SharedStoreLaws.SwitchIsAtomic` | internal/agent/artifact/shared.go:122-163 | The running digest afterwards is the new one exactly when the entry exists and the rename succeeds, else the old one; other live links and all files are unchanged. |
| `SharedStoreLaws.RemoveLinkStops` | internal/agent/artifact/shared.go:166-175 | After a removal that worked the name has no running digest; other links and all files are as they were; after a failed one everything is. |
| `SharedStoreLaws.ValidNameIsOneComponent` | internal/sharedfile/name.go:17-35 | A name is valid exactly when, taken as a path, it is one ordinary component without backslash and NUL, and not "store". |
| `SharedStoreLaws.ReservedSuffixCollides` | internal/sharedfile/name.go:14-35 | For every valid name, by a run: its failed fetch deletes the live blob of the name with ".partial" appended. |
| `SharedStoreLaws.GCKeepsExactly` | internal/agent/artifact/shared.go:206-309 | A blob survives if and only if it is kept (desired, and live or newest within the budget or no positive retention); surviving files are unchanged. |
| `SharedStoreLaws.GCLeavesNoDebris` | internal/agent/artifact/shared.go:310-350 | No partial, no sidecar without its base, no empty digest directory. |
| `SharedWorkers.LinksResolveWhileApart` | internal/agent/reconciler/shared.go:160-166 | Over every interleaving of the single steps of any number of fetch workers with switches and the single removals of collections: while no two running workers for a safe name, or for a name whose blob is its partial, share a partial file, its link resolves to a blob of its own digest. |
| `SharedWorkers.OneWorkerIsSafeIff` | internal/agent/reconciler/shared.go:215-229 | For every safe valid name and every bound k: if at most k workers fetch into any one partial of its chain, every run leaves its link resolving, if and only if k is at most one. |
| `SharedWorkers.DoomedMayBeRemoved` | internal/agent/artifact/shared.go:266-309 | What the collector decides to remove is among what the interleaved collection may remove. |
| `SharedWorkers.NextIsSound` | internal/agent/artifact/shared.go:61-93 | Each single step of a worker, of a collection and of the main loop keeps the invariant behind it. |
| `SharedWorkers.AloneIsEnsure` | internal/agent/artifact/shared.go:50-94 | The single steps of one undisturbed worker leave exactly what the whole call leaves, for every way the fetch can end. |
| `SharedWorkers.SharingBreaks` | internal/agent/reconciler/shared.go:215-258 | For every name: a cancelled worker and its successor on one partial file can install and link content nobody verified. |
| `SharedStoreLaws.GCKeepsAtMostRetention` | internal/agent/artifact/shared.go:289-302 | For a desired name and positive retention the exact number of survivors, never above the retention. |
| `SharedStoreLaws.GCKeepsNewest` | internal/agent/artifact/shared.go:277-302 | Newest first, in terms of recorded times and modification times only: of two blobs of one name that are not linked, the one installed later, or at the same time in the greater directory, survives if the other does. |
| `SharedStoreLaws.GCKeepsThisMany` | internal/agent/artifact/shared.go:266-309 | How many, in numbers: the linked blob stays and min(others, retention minus one if linked) of the others; all without positive retention; none of a name not desired. |
| `SharedStoreLaws.GCIsLocalToName` | internal/agent/artifact/shared.go:266-309 | Whether a blob survives depends only on the files, link and desire of its own name, not on other names in the same directory. |
| `SharedStoreLaws.GCIsIdempotent` | internal/agent/artifact/shared.go:215-314 | A second collection with the same links and times leaves the disk as it is. |
| `SharedStoreLaws.GCRetentionMonotone` | internal/agent/artifact/shared.go:206-214 | Raising a positive retention keeps every blob that was kept. |
| `Retention.SortNewestFirst` | internal/agent/artifact/gc.go:120-125 | The in-place sort yields a newest-first order (time, then name, both descending) of the same entries and leaves the rest of the array alone. |
| `Retention.NewestIsPrefix` | internal/agent/artifact/gc.go:129-133 | The first k of the sorted list are exactly the entries with fewer than k newer ones. |
| `Retention.NewestCard` | internal/agent/artifact/gc.go:126-133 | The k newest of a set are min(k, size) many. |
| `Retention.NewestMonotone` | internal/agent/artifact/gc.go:99-106 | A smaller candidate set or a larger budget loses no entry that was among the newest. |
| `ReleaseStore.Manager.Download` | internal/agent/artifact/artifact.go:155-171 | The step-by-step download leaves `Releases.AfterDownload`: the removal of the version directory after a failure unless the directory its rootfs now is has users, and what is left when the process dies at any stage. |
| `ReleaseStore.Manager.PopulateRelease` | internal/agent/artifact/artifact.go:173-204 | Artifact, config, shared link and stamp in the source order, with the state left at each failure. |
| `ReleaseStore.Manager.DownloadOCI` | internal/agent/artifact/artifact.go:206-240 | The image path: archive fetched, hashed, unpacked and removed, metadata written, not opened or torn, with the state left at each failure and each death. |
| `ReleaseStore.Manager.Unpack` | internal/agent/artifact/oci_image.go:34-74 | The new rootfs, a directory of its own, is complete before it takes the place of the old one; the archive goes and the metadata comes after that. |
| `ReleaseStore.Manager.DownloadBinary` | internal/agent/artifact/artifact.go:179-193 | The binary path: verified releases are skipped, a fetched binary is checked when a digest is given. |
| `ReleaseStore.Manager.GCReleases` | internal/agent/artifact/gc.go:56-135 | Counting, early return, in-use filter, sort and deletion leave exactly `Releases.AfterGC`, and a failing removal is reported as the newest doomed version that cannot go. |
| `ReleaseStore.Manager.CollectBeyond` | internal/agent/artifact/gc.go:94-133 | The early return before the process walk and the filtered path both delete exactly the free versions outside the newest within the budget. |
| `ReleaseStore.Manager.ListExtra` | internal/agent/artifact/gc.go:75-93 | Lists each version that is not keep-listed once and counts those that are. |
| `ReleaseStore.Manager.DropInUse` | internal/agent/artifact/gc.go:107-117 | The in-place filter keeps exactly the entries not in use, each once. |
| `ReleaseStore.Manager.RemoveSuffix` | internal/agent/artifact/gc.go:129-133 | Deletes from the newest doomed version on and stops at the first that cannot be removed. |
| `ReleaseStore.StopsHere` | internal/agent/artifact/gc.go:129-133 | What was deleted before the stop is what is newer than every version that cannot be removed. |
| `ReleaseLaws.DownloadOutcome` | internal/agent/artifact/artifact.go:150-171 | With a digest: success means the release verifies; a verified release stays verified, even through a death; any other failure leaves no directory unless the rootfs it holds is in use; other versions are untouched. |
| `ReleaseLaws.DownloadSucceedsIff` | internal/agent/artifact/artifact.go:155-240 | Exactly when a download succeeds, for every tree and reference: mkdir worked, the release had the digest or the artifact was fetched well (for an image also unpacked, its metadata written), a wanted configuration was fetched, and the link was made. |
| `ReleaseLaws.DownloadInstalls` | internal/agent/artifact/artifact.go:173-240 | The release is then the fetched artifact: the binary, or the unpacked archive under the digest asked for or its own. |
| `ReleaseLaws.DownloadFailureMeans` | internal/agent/artifact/artifact.go:155-240 | Each reported failure says what happened. |
| `ReleaseLaws.FailedImageLeaves` | internal/agent/artifact/artifact.go:206-240 | What a failed image download leaves where the directory stays: the archive only after a failed fetch, the old rootfs unless unpacking failed, the old metadata unless its write tore. |
| `ReleaseLaws.DownloadTouches` | internal/agent/artifact/artifact.go:155-171 | A directory that stays is touched, and a new one starts empty. |
| `ReleaseLaws.DownloadCompletes` | internal/agent/artifact/artifact.go:173-240 | Success leaves the shared link, the config, the first stamp and no fetched archive; a verified release keeps its binary and image even through a failure. |
| `ReleaseLaws.InUseReleaseMayBeLeftUnverified` | internal/agent/artifact/artifact.go:161-168 | The exception is real: a failed re-download can leave a rootfs in use inside an unverified release. |
| `ReleaseLaws.DownloadKeepsImagesIff` | internal/agent/artifact/artifact.go:155-240 | Metadata and rootfs of every release stay those of one archive if and only if the process does not die between the rename of the new rootfs and the write of its metadata (or before the removal of a directory whose metadata could not be written) over metadata of another archive. |
| `ReleaseLaws.RunKeepsImagesIff` | internal/agent/artifact/artifact.go:155-240 | The same over every run of downloads, collections and touches. |
| `ReleaseLaws.AcceptedImageHoldsItsArchive` | internal/agent/artifact/artifact.go:242-271 | Over every run, whatever fails and wherever else the process dies, an image release accepted for a digest holds the unpacked archive of that digest. |
| `ReleaseLaws.DeathMixesImage` | internal/agent/artifact/artifact.go:226-238 | After a death there, over old metadata of another archive, the release is accepted for the old digest with the new archive unpacked. |
| `ReleaseLaws.GCKeepsExactly` | internal/agent/artifact/gc.go:53-134 | A version survives if and only if it is keep-listed, in use, or among the newest others within the budget (or deletion stopped before it). |
| `ReleaseLaws.GCCount` | internal/agent/artifact/gc.go:94-134 | Keep-listed and in-use versions all stay; of the rest exactly min(budget, available) stay. |
| `ReleaseLaws.GCKeepsThisMany` | internal/agent/artifact/gc.go:94-134 | How many, in numbers: with r the configured retention or 3, min(free versions, max(0, r minus the keep-listed versions on disk)) of the free ones stay, and every other version. |
| `ReleaseLaws.GCKeepsNewest` | internal/agent/artifact/gc.go:118-133 | Newest first, in terms of stamps and modification times only: of two free versions the later one, or of the same time the greater name, stays if the other does. |
| `ReleaseLaws.StuckGCStops` | internal/agent/artifact/gc.go:129-133 | A version that cannot be removed stays, and only later ones went before it. |
| `ReleaseLaws.GCIsIdempotent` | internal/agent/artifact/gc.go:56-135 | With the same in-use set a second collection deletes nothing. |
| `ReleaseLaws.GCMonotone` | internal/agent/artifact/gc.go:20-25 | A larger in-use set or effective retention never deletes a version that was kept. |
| `ReleaseLaws.RetentionMonotoneIff` | internal/agent/artifact/gc.go:20-25 | Raising the configured retention is harmless if and only if the effective value does not drop; from 0 (meaning 3) to 1 it drops. |
| `ReleaseLaws.StampIsKept` | internal/agent/artifact/gc.go:36-42 | No download, collection or touch changes an existing stamp. |
| `ReleaseLaws.RunKeepsOrder` | internal/agent/artifact/gc.go:27-51 | Over every run with a clock that does not go back, stamps are ordered as the versions first landed. |
| `ReleaseLaws.StampedRankByLanding` | internal/agent/artifact/gc.go:27-51 | From an empty tree, stamped releases rank in order of first landing, ties by name. |
| `ReleaseLaws.StampedRankIsFixed` | internal/agent/artifact/gc.go:27-51 | While both directories exist, the rank of two stamped releases against each other never changes. |
| `ImageIndex.Walk.PickImageFromIndex` | internal/agent/artifact/oci_image.go:242-288 | The recursive loop over the shared visited set and report computes `ImageIndex.PrunedIndex`; it ends on every layout, cyclic ones included. |
| `ImageIndex.PrunedAgreesWithPlain` | internal/agent/artifact/oci_image.go:237-288 | Whenever the plain search ends without error and descriptors of equal digests are alike (both indexes, both mismatches, or both matches of one platform), the pruned search returns the same image and platform. |
| `ImageIndex.FlatAgreesIff` | internal/agent/artifact/oci_image.go:242-288 | For every list without nested indexes, if the plain search does not fail: same result if and only if nothing matches or the first match has a digest that no earlier descriptor has. |
| `ImageIndex.PlainTakesFirst` | internal/agent/artifact/oci_image.go:250-287 | On a list without nested indexes the plain search selects the first match. |
| `ImageIndex.AlikeDescriptors` | internal/agent/artifact/oci_image.go:257-287 | The plain search treats alike descriptors of one digest alike at every depth. |
| `ImageIndex.PrunedListAgrees` | internal/agent/artifact/oci_image.go:242-288 | The agreement for every list, depth and visited set whose members are dead ends or still being searched. |
| `ImageIndex.DepthFree` | internal/agent/artifact/oci_image.go:243-245 | Apart from the nesting limit, the result of the plain search does not depend on the depth at which a list is met. |
| `ImageIndex.NoMatchMeansNoneReachable` | internal/agent/artifact/oci_image.go:239-241 | A nil image with a nil error means that no descriptor reachable through nested indexes matches the platform. |
| `ImageIndex.PrunedDecidesReachability` | internal/agent/artifact/oci_image.go:242-306 | Without an error an image is found if and only if a matching descriptor is reachable, and what is found is one. |
| `ImageIndex.SelectionSuits` | internal/agent/artifact/oci_image.go:275-306 | In terms of the descriptors alone: what is selected and what is reported as its platform suit the request, another operating system or architecture never does, and without match and error nothing reachable suits. |
| `ImageIndex.FatalHasCause` | internal/agent/artifact/oci_image.go:242-288 | An error has a cause: a reachable index or suitable image that cannot be read, or an index nested in three others. |
| `ImageIndex.ReportsAreReachable` | internal/agent/artifact/oci_image.go:257-274 | Every report entry is of something reachable, linux when it has no platform. |
| `ImageIndex.ReportedOnce` | internal/agent/artifact/oci_image.go:250-273 | Every newly visited digest adds one entry to the report. |
| `ImageIndex.SharedDigestIsMissed` | internal/agent/artifact/oci_image.go:251-255 | A concrete index that lists one digest for two platforms: the pruned search misses the second. |
| `ImageIndex.CycleIsSurvived` | internal/agent/artifact/oci_image.go:242-288 | A concrete cyclic index on which the plain search fails and the pruned one selects the image. |
| `LeaseClient.Client.New` | sdk/lease/client.go:62-112 | Refuses missing fields and incomplete or unreadable TLS files; otherwise an unacquired client with the configured TTL, margin and threshold, or 30, 1 and 2 seconds. |
| `LeaseClient.ConfigRefusedIff` | sdk/lease/client.go:62-112 | A configuration is refused exactly for a missing field, TLS files not given all together, or files that cannot be loaded. |
| `LeaseClient.Client.ApplyGrant` | sdk/lease/client.go:241-264 | First grant and renewal give `LeaseClient.AfterGrant`. |
| `LeaseClient.Client.CheckBeforeOrder` | sdk/lease/client.go:170-195 | Verdict and new baseline are `LeaseClient.Check` and `LeaseClient.AfterCheck`; a failed check changes nothing. |
| `LeaseClient.Client.RenewOnce` | sdk/lease/client.go:219-239 | Only a grant to a client that holds a lease changes the state. |
| `LeaseClient.RunAgrees` | sdk/lease/client.go:241-264 | Over every run the anchor-relative deadline refines a model that stores one absolute deadline. |
| `LeaseClient.DeadlineIsLastGrants` | sdk/lease/client.go:170-180 | After any run a check reports expiry exactly when the last grant's absolute deadline is reached. |
| `LeaseClient.ExpiredUntilNextGrant` | sdk/lease/client.go:178-180 | Past the deadline every check fails until the next grant. |
| `LeaseClient.PassedIsBeforeExpiry` | sdk/lease/client.go:170-195 | A passed check is strictly before the deadline, and strictly before `expiresAt` while the wall clock gained at most the margin. |
| `LeaseClient.GainBoundIsExact` | sdk/lease/client.go:247-250 | For every gain above the margin some instant before the deadline is at or after expiry. |
| `LeaseClient.NoTimeLeft` | sdk/lease/client.go:247-250 | A grant with no more than the margin left gives no time at all. |
| `LeaseClient.RenewalGainsReadDelay` | sdk/lease/client.go:244-263 | A renewal reads the wall clock before the monotonic one, and that delay is added to the lease. |
| `LeaseClient.PassedChecksRecordTheirDelay` | sdk/lease/client.go:181-194 | The jump baseline is the read delay of the last passed check; renewals and failed checks leave it. |
| `LeaseClient.JumpTestComparesReadDelays` | sdk/lease/client.go:181-191 | The clock-jump test compares two read delays; no wall reading takes part in it. |
| `LeaseServer.Store.AcquireLease` | internal/controlplane/store/memory.go:613-641 | Grants, refusals and errors (a failed read of the random source included) of one strategy, other strategies unchanged. |
| `LeaseServer.Store.RenewLease` | internal/controlplane/store/memory.go:643-671 | Only the recorded machine with the recorded lease id, before expiry, extends it. |
| `LeaseServer.AcquireGrantedIff` | internal/controlplane/store/memory.go:613-641 | Who gets a lease, exactly: a named machine with a positive TTL, when there is none, it is its own, or it expired more than the margin ago; and what is recorded. |
| `LeaseServer.RenewGrantedIff` | internal/controlplane/store/memory.go:643-671 | Who renews, exactly: the recorded machine with the recorded id before the recorded expiry; and what is recorded. |
| `LeaseServer.CertificateDecides` | internal/controlplane/lease/server.go:32-99 | A certificate for another machine is refused, and a fitting one changes nothing. |
| `LeaseServer.Server.Acquire` | internal/controlplane/lease/server.go:32-60 | The handler: missing fields, a certificate for another machine, the default TTL, then the store. |
| `LeaseServer.Server.Renew` | internal/controlplane/lease/server.go:62-99 | The handler takes the machine from the record and compares the caller only when there is a certificate. |
| `LeaseExclusion.NeverBothPass` | internal/controlplane/lease/server.go:32-99 | For every run of acquisitions, renewals in their two store sections with anything in between, late, repeated or lost replies and clocks, with certificates or with fresh lease ids and clients that renew with ids sent to them: two clients on different machines never both pass, while the client and server margins cover skew and gain. |
| `LeaseExclusion.RenewalFencesIff` | internal/controlplane/lease/server.go:67-78 | A renewal granted in the second section keeps the grants of different machines apart if and only if the recorded machine gets it. |
| `LeaseExclusion.ForeignRenewalBreaksExclusion` | internal/controlplane/lease/server.go:74-78 | Without certificates, one renewal with the id of another machine after a proper run lets both pass. |
| `LeaseExclusion.ReusedIdBreaksExclusion` | internal/controlplane/store/lease.go:31-37 | Without certificates, a lease id that is not fresh lets both pass although each renews with its own. |
| `LeaseExclusion.RunIsSafe` | internal/controlplane/store/memory.go:613-671 | The invariant behind it: the record covers every grant sent, and grants to different machines do not overlap. |
| `LeaseExclusion.CoversIffKeepsExpiry` | internal/controlplane/store/memory.go:631-638 | A step keeps that invariant if and only if an acquisition by the holder does not bring the recorded expiry forward and a renewal is granted to the recorded machine only. |
| `LeaseExclusion.TtlKeepsExpiry` | internal/controlplane/store/memory.go:631-638 | Never asking for a shorter TTL is enough for that. |
| `LeaseExclusion.MarginsAreExact` | internal/controlplane/store/lease.go:10-12 | For all margins a run in which one nanosecond more of gain lets both clients pass. |
| `LeaseExclusion.SameMachineIsNotFenced` | internal/controlplane/store/lease.go:70-72 | A run in which two clients on one machine both pass. |
| `LeaseExclusion.ShorterTtlBreaksExclusion` | internal/controlplane/store/memory.go:631-638 | A run with perfect clocks in which a shorter second TTL lets two machines pass. |
| `TokenCache.TokenStore.Load` | internal/auth/tokens.go:106-125 | The loaded cache is the active rows in both indexes. |
| `TokenCache.TokenStore.Lookup` | internal/auth/tokens.go:202-223 | Trims, checks the prefix, hashes, and finds a token exactly when the hash is indexed. |
| `TokenCache.TokenStore.Use` | internal/auth/tokens.go:208-216 | The critical section of lookup stamps the record both indexes share and the dirty map. |
| `TokenCache.CreatedIsFound` | internal/auth/tokens.go:146-212 | The plaintext handed out by create, with or without white space around it, finds the created token. |
| `TokenCache.TokenStore.Create` | internal/auth/tokens.go:146-200 | An undisturbed create gives a token of the owner with a trimmed or default name, in store and cache; a missing owner, no randomness or a store error leaves the cache alone, and the store too unless it wrote all the same. |
| `TokenCache.GivenNameIsKept` | internal/auth/tokens.go:150-153 | A given name is kept without the white space around it; a blank one becomes "default". |
| `TokenCache.TokenStore.Insert` | internal/auth/tokens.go:195-199 | The critical section of create enters the record under id and hash. |
| `TokenCache.TokenStore.Revoke` | internal/auth/tokens.go:240-282 | An undisturbed revoke: no actor, not owned, store error (with or without the write), not revocable, or revoked in store and cache. |
| `TokenCache.TokenStore.Uncache` | internal/auth/tokens.go:272-281 | The last critical section of revoke removes the token from both indexes and the dirty map. |
| `TokenCache.UncacheRemovesToken` | internal/auth/tokens.go:272-281 | The token of that user is gone from every map, and nothing else is. |
| `TokenCache.InsertAddsToken` | internal/auth/tokens.go:190-198 | A new token is found by id and by hash and has no use yet; the rest is as it was. |
| `TokenCache.LookupStampsToken` | internal/auth/tokens.go:208-216 | A lookup changes two times of the token it finds, and nothing else. |
| `TokenCache.TokenStore.Take` | internal/auth/tokens.go:286-293 | The first critical section of flush swaps the dirty map. |
| `TokenCache.TokenStore.MergeBack` | internal/auth/tokens.go:298-305 | After a failed flush the dirty map holds the later time of each token. |
| `TokenCache.MergeKeepsLater` | internal/auth/tokens.go:298-305 | Merging keeps of each token in either map the later time. |
| `TokenCache.TokenStore.Flush` | internal/auth/tokens.go:285-309 | An undisturbed flush writes all dirty times and clears them, or fails and keeps them, written or not. |
| `TokenCache.Database.RevokeAPIToken` | internal/controlplane/store/memory.go:815-825 | The store marks an active row of that user revoked, else reports false. |
| `TokenCache.RevokeChangesOwnRow` | internal/controlplane/store/memory.go:815-825 | A revocation makes an active row of that user inactive, and changes nothing else. |
| `TokenCache.TouchChangesActiveTimes` | internal/controlplane/store/memory.go:827-842 | A touch changes the times of active rows in the batch, and nothing else. |
| `TokenCache.InsertAddsActiveRow` | internal/controlplane/store/memory.go:795-813 | A new row is active and unused, under its own id. |
| `TokenRuns.NextIsCoherent` | internal/auth/tokens.go:146-282 | Every critical section of every call, store calls that write and still report an error included, keeps the invariant that ties cache, rows and calls in flight together. |
| `TokenRuns.IndexesAlwaysAgree` | internal/auth/tokens.go:106-309 | Over every interleaving of create, lookup, revoke and flush both indexes hold the same tokens. |
| `TokenRuns.RevokedIsNeverFound` | internal/auth/tokens.go:240-282 | Once revoke returned true, no later lookup finds the token, under any interleaving. |
| `TokenRuns.PersistedRevokeSucceeds` | internal/auth/tokens.go:256-281 | Once the store revoked a token, the last section of that call finds it cached and returns true. |
| `TokenRuns.QuiescentCacheIsActiveRows` | internal/auth/tokens.go:106-282 | With no create or revoke in flight the cache is the persisted active rows, in both indexes, if and only if no store call of theirs ever wrote and reported an error; for all other tokens it is so in any case. |
| `TokenRuns.ShownUseIsNewest` | internal/auth/tokens.go:106-223 | Over every interleaving the last-used time shown for a cached token is that of its newest lookup, or the one loaded. |
| `TokenRuns.NewestUseIsNeverLost` | internal/auth/tokens.go:202-309 | With one flush at a time, however often it fails, the newest use of a live token is its dirty, else in-flight, else persisted time, and none of these is later. |
| `TokenRuns.NextHoldsIff` | internal/auth/tokens.go:285-309 | With any number of flushes under way, one section keeps every newest use held somewhere if and only if it is not a store write of an older time over a newest use that is nowhere else: a condition on the state before the step, not one a caller can test. |
| `TokenRuns.NewestUseIsHeldIff` | internal/auth/tokens.go:202-309 | Over every interleaving from the start, overlapping flushes included: every newest use of a live token stays held throughout if and only if no step of the run is such a write. |
| `TokenRuns.SecondFlushOverlaps` | cmd/controlplane/main.go:258-264 | After any run with one flush at a time, the flush at shutdown that begins while another is at the store leads to two batches in order of age. |
| `TokenRuns.ShutdownPersistsNewestIff` | cmd/controlplane/main.go:258-264 | For two such batches, every order of their store calls, and every outcome (written, failed, written and failed), with nothing flushed afterwards: the program leaves every newest use persisted if and only if the use of every live token reaches its row, a test on the two batches, the two outcomes and the row times. |
| `TokenRuns.FailedFlusherLoses` | cmd/controlplane/main.go:130-134 | If the store call of the flusher fails unwritten, the newest use of every live token that only its batch carries is lost, unless its row had it. |
| `TokenRuns.OverlappingFlushesLoseATime` | internal/auth/tokens.go:285-309 | Two overlapping flushes can leave an older time persisted than the last use. |
| `Paths.CleanKeepsMeaning` | internal/volume/name.go:71-72 | The cleaned form of a path has the same components and the same root. |
| `Paths.CleanIdempotent` | internal/volume/name.go:71-72 | Cleaning twice is cleaning once. |
| `Paths.CleanDecidesMeaning` | internal/volume/name.go:71-75 | Two paths clean to the same string if and only if they mean the same. |
| `Paths.DotDotAtRoot` | internal/volume/name.go:43-50 | On a rooted path ".." takes the last component away, and is dropped when there is none. |
| `Paths.DotDotOnRelative` | internal/agent/artifact/unpack.go:111-119 | On a relative path ".." takes the last component away, unless that is ".." or there is none. |
| `Paths.OrdinaryIsAppended` | internal/volume/name.go:43-50 | An ordinary component is appended to the components of a path. |
| `Paths.DotIsDropped` | internal/volume/name.go:43-50 | A trailing slash and a dot change nothing. |
| `Paths.FirstComponent` | internal/volume/name.go:43-50 | The components of a path of one component, rooted or not; with the four rows above they determine those of every path. |
| `Paths.ClimbTakesLast` | internal/volume/name.go:43-50 | n steps up from a rooted path take the last n components away. |
| `Paths.CompsOfRender` | internal/volume/name.go:71-72 | Rendering a normal component list and reading it back gives the list. |
| `Paths.SplitOfJoin` | internal/agent/artifact/unpack.go:95-99 | Splitting a joined list of slash-free components gives the list. |
| `Mounts.OverlapMeaning` | internal/volume/name.go:69-77 | On absolute paths the string test is the component prefix relation between non-root paths; it is symmetric and depends on cleaned forms only. |
| `Mounts.OverlapAgreesIff` | internal/volume/name.go:69-77 | It agrees with "equal or one a parent of the other" if and only if not exactly one path is the root. |
| `Mounts.ContainerPathMeaning` | internal/volume/name.go:43-67 | Accepted exactly when absolute, not the root, not at or under proc, dev or tmp, and not the resolver configuration, in components. |
| `Mounts.ContainerPathErrors` | internal/volume/name.go:43-67 | Which error a path gets, in components. |
| `Mounts.ClimbIsRefused` | internal/volume/name.go:50-64 | A path that climbs to the root and goes down to proc, dev or tmp is refused as reserved. |
| `Mounts.NameIsOneComponent` | internal/volume/name.go:18-38 | A volume name is valid exactly when, taken as a path, it is one ordinary component without backslash and NUL, and not the reserved one. |
| `Mounts.ValidateMounts` | internal/volume/name.go:81-103 | Accepts exactly the lists of valid entries with distinct names and pairwise incomparable paths, for every scan order of the map; otherwise the error is justified by the first entry that cannot follow those before it. |
| `Mounts.Refusal` | internal/volume/name.go:83-101 | One turn of the loop, with the reason for each refusal. |
| `Mounts.OrderDoesNotMatter` | internal/volume/name.go:81-103 | The verdict is the same for every order of the list. |
| `Mounts.AtMostOneCovers` | internal/volume/name.go:79-103 | At most one mount of an accepted list covers a container path. |
| `TarPaths.SafeTarNameAccepts` | internal/agent/artifact/unpack.go:86-105 | Refused exactly when a component is ".." or a second leading slash is left. |
| `TarPaths.SafeTarNameIsSafe` | internal/agent/artifact/unpack.go:86-105 | An accepted name is "." or a clean relative path without "..". |
| `TarPaths.SafeTarNameKeepsMeaning` | internal/agent/artifact/unpack.go:86-105 | An accepted name keeps its meaning: without backslashes, the result is made of the components of the name itself, without the empty ones and the dots. |
| `TarPaths.BackslashIsSlash` | internal/agent/artifact/unpack.go:88-88 | Names that differ only in slash or backslash get the same answer. |
| `TarPaths.SafeTarNameIdempotent` | internal/agent/artifact/unpack.go:86-105 | An accepted name is accepted again, unchanged. |
| `TarPaths.SymlinkAcceptedIff` | internal/agent/artifact/unpack.go:111-121 | For every entry and link: a relative link is accepted exactly when the walk through the entry's directory and the link never steps above the root. |
| `TarPaths.SafeEntrySymlinkAcceptedIff` | internal/agent/artifact/unpack.go:111-121 | For an extracted entry: exactly when the link climbs no higher, at any prefix, than the entry's directory is deep. |
| `TarPaths.EscapesIffBelowZero` | internal/agent/artifact/unpack.go:116-119 | Lexical cleaning ends outside exactly when some prefix of the walk was outside. |
| `SecretRefs.ParseInvertsToken` | internal/secrets/refs.go:18-60 | A value is read as secret n exactly when it is n's token and n is well formed; a token of any other name is an error, never text. |
| `SecretRefs.ValidMeansWellFormed` | internal/secrets/refs.go:35-68 | The validator accepts exactly 1 to 63 name characters starting with a letter or digit, without the prefix. |
| `SecretRefs.NameCharactersAre` | internal/secrets/refs.go:62-68 | The characters of names, listed. |
| `Secrets.Module.New` | internal/secrets/module.go:44-70 | Dark without a key; otherwise the configured keys, the id defaulted, or the error of the first check that fails. |
| `Secrets.Module.Put` | internal/secrets/module.go:79-104 | Stores the value sealed under the current key and id and returns its token and catalog entry, or changes nothing. |
| `Secrets.Module.Delete` | internal/secrets/module.go:143-158 | Removes the row of a valid name that is present, or changes nothing. |
| `Secrets.PutSucceedsIff` | internal/secrets/module.go:79-104 | A value is stored exactly when there is a key, the name is well formed, the value has at most 65536 bytes, and randomness and store are there. |
| `Secrets.PutThenResolve` | internal/secrets/module.go:79-104 | The token of a stored secret resolves to its value; its catalog entry has the length and key id, not the value. |
| `Secrets.DeleteThenResolve` | internal/secrets/module.go:143-158 | A secret that is there can be deleted and then no longer resolves; one that is not there is reported. |
| `Secrets.ConfiguredKeysAre` | internal/secrets/module.go:44-70 | Which configurations are accepted, and the keys and ids they give. |
| `Secrets.Module.ResolveMap` | internal/secrets/module.go:182-195 | All or nothing: same keys with resolved values, or the error of one of them, for every visiting order. |
| `Secrets.OpensExactly` | internal/secrets/module.go:223-241 | A row opens exactly when the current key sealed it and its id is the current one or empty, or the previous key sealed it and its id is not the current one; the configured previous id plays no part. |
| `Secrets.OpenErrorIs` | internal/secrets/module.go:223-241 | Which error a row that does not open gives. |
| `Secrets.ResolvesIffValidAndReadable` | internal/secrets/module.go:160-221 | What passes the apply-time check resolves except for rows the keys do not read, and nothing else resolves. |
| `SecretRuns.RunIsSound` | internal/secrets/module.go:79-158 | Over every history of puts, deletes and restarts each row is what the book of puts says, sealed by the generation it says. |
| `SecretRuns.NeverAWrongValue` | internal/secrets/module.go:198-221 | After any history under any sequence of keys a token resolves to the last put value or to an error. |
| `SecretRuns.ReadableIffLastTwoGenerations` | internal/secrets/module.go:223-241 | Under proper rotation a value is readable in its own and the next generation and in no later one. |
| `SecretRuns.ResolveAfterRotations` | internal/secrets/module.go:198-241 | After any history with proper rotations: last value, not found after a delete, an error two rotations later. |
| `SecretRuns.RotationKeepsIffNewId` | internal/secrets/module.go:223-229 | A rotation that keeps the old key as previous keeps a value readable if and only if the new key has another id. |
| `SecretRuns.RelabelKeepsIffKeyIsPrevious` | internal/secrets/module.go:223-241 | A new id on an unchanged key loses every value unless the key is also the previous key. |
| `SecretRuns.SharedIdLosesAValue` | internal/secrets/module.go:225-229 | A concrete rotation under a shared id after which the token does not resolve. |

## Left out

- HTTP, RPC, OAuth, CLI, TLS and CA code, web assets, generated protobuf code: plumbing around the parts modelled.
- The reconciler, orchestrator and the rest of the control-plane store: only the lease and token-row operations of the memory store are modelled.
- Failures of remove, stat, read-directory and chmod, and of mkdir in the shared store: taken to succeed, except where a model has a parameter for them; fetch, hash-read, verify, rename, unpack, metadata write, config fetch, link, link-removal, release mkdir and release-removal failures are modelled.
- ReleaseStore.Manager.Download: a process that dies inside the removal of a directory is not modelled.
- SharedStore.Manager.EnsureSharedFile: a digest whose part after `sha256:` is not one plain path component is not modelled; its path would lie outside the digest directories.
- SharedStore.Manager.SwitchSharedTo: the same.
- ReleaseStore.Manager.GCReleases: a removal that fails is modelled as removing nothing, because which files `os.RemoveAll` deleted first is up to the file system.
- SharedStore.Manager.FetchAndInstall: a process that dies after the rename and before the recorded time has the state of a recorded time that could not be written; dying between any two steps is in `SharedWorkers`.
- SharedWorkers.LinksResolveWhileApart: a switch is a single step there; writes go to the path of the partial, not to an open file.
- SharedStore.Manager.GCShared: a collection interrupted half way, subdirectories inside a digest directory and files beside the digest directories are not modelled.
- ReleaseStore.Manager.PopulateRelease: the config file is one slot; its name, taken from the reference, is not modelled.
- ReleaseStore.Manager.DownloadOCI: archive kinds, layers and tar extraction are reduced to whether unpacking succeeds.
- TokenCache.TokenStore.Create: the audit entry and the nil-persistence mode are not modelled; random ids and secrets and the hash function are parameters.
- TokenCache.TokenStore.Revoke: the audit entry is not modelled.
- LeaseClient.Client.ApplyGrant: saturation of Go durations at about 292 years is not modelled; times are unbounded integers.
- LeaseClient: the renew loop's ticker and its cancellation are not modelled; grants, renewals and checks come in any order.
- Strings are sequences of characters, one a byte: case folding and white space are ASCII; other Unicode folding and spaces are not modelled.
- Paths: `path.Clean`, `path.Join` and `path.Dir` are Go's library functions and are modelled from their documented lexical rules.
- TarPaths: writing entries below the root and following existing links on disk are not modelled.
- Secrets.Module.Put: nonces and clock readings are parameters.
- SecretRuns: reading keys from the environment (base64, hex) is not modelled; a configuration is given as bytes.
- SwitchTo, LiveWriterConflict, ShadowsBindSame, exchange codes, docker archives, name validators on their own: easy members, or their callers are not part of this model.
