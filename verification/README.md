# ArtifactRegistry: a verified model

This project models an in-memory OCI artifact registry and proves, for every run,
what its clients rely on.

**Content.** Tags point at manifests, manifests refer to blobs by digest, and a
mark-and-sweep collector deletes what no tag reaches. The blob store is sharded and
reference counted, the tag table carries a redundant reference ledger, and a
collection is two steps: other pushes, retags and collections may run between its
Mark and its Sweep, and any old mark may be swept at any time. The central theorem is
that no run ever leaves a tag pointing at a missing manifest or a missing layer.

**Uploads.** Chunks of a session arrive in any order. The written counter, the resume
offset and the completion check are three independent computations in int64; they
agree, and completing gives back exactly the content. Only a token bound to a session
gets an answer about it, and an aborted session is gone for good. Around them sits the accounting
of in-flight pushes per namespace, whose counters must never drift, even when other
steps fall between the two critical sections of Complete.

## How it is built

Each store is a class in the form the program has it: nested maps updated in place,
loops over map keys in an unknown order, error paths in the program's order. Every
method is proved against a function on plain values (a flat table keyed by repository
and digest or name). The state machine in `Systems.dfy` takes its steps from the same
functions, so what is proved about runs is about what the methods compute.

| file | what it holds |
|---|---|
| `Model.dfy` | value types, errors, int64 wrap-around, the foreign functions |
| `Sets.dfy`, `Sorting.dfy`, `NestedMaps.dfy` | finite sets, sorting, nested maps and the flat maps they represent |
| `Chunking.dfy`, `Uploads.dfy`, `RoundTrip.dfy` | chunk arithmetic, one upload, the chunked round trip |
| `BlobTables.dfy`, `BlobStores.dfy` | the flat blob table; the sharded store |
| `TagTables.dfy`, `TagStores.dfy` | the ledger and its exactness; the tag store |
| `Auth.dfy`, `Repos.dfy`, `Index.dfy` | tokens, namespaces, the published index |
| `Transfers.dfy`, `SessionManagers.dfy`, `Inflight.dfy` | sessions, their manager, in-flight accounting |
| `Admission.dfy`, `Manifests.dfy` | the two admission checks; the manifest store |
| `Collection.dfy`, `Collectors.dfy`, `Safety.dfy`, `Exactness.dfy` | Mark and Sweep; the collector; what it never breaks; what it leaves exactly |
| `Pipeline.dfy`, `Pushers.dfy`, `Registries.dfy` | push and pull; the pusher; the registry and RunGC |
| `Systems.dfy`, `Frames.dfy`, `Invariants.dfy` | the state machine, what its steps leave alone, and its invariant |
| `Theorems.dfy`, `Facades.dfy` | what holds in every reachable state; the facade operations as runs of steps |
| `UploadRuns.dfy`, `TokenRuns.dfy`, `Deletions.dfy` | uploads, tokens, and living and deleted namespaces in whole runs |
| `SessionAnswers.dfy`, `SessionRuns.dfy`, `Pulls.dfy` | what every operation on sessions, and every push and pull, answers and changes; that what is pulled is what was pushed |
| `Holding.dfy`, `Publishing.dfy` | who loses a reference and when; a push taken apart |
| `Samples.dfy`, `LostBlobs.dfy`, `TakenReferences.dfy` | concrete runs into the states where a promise fails |

SHA-256, xxhash and the JSON decoder are three arbitrary functions (`Env`). No property
of them is assumed, except that what is said about the bytes behind a manifest requires
the digest to be collision-free. Random identifiers and the clock are arguments: a step that would draw
an identifier used before is not taken. The release closure returned by `Enter` is an
entry of a ticket table, whose `fired` flag is the closure's `sync.Once`. The concrete
runs hold in every environment with a collision-free digest in which two given payloads
parse; `SampleIsSuitable` shows that there is one.

## Where the program falls short of its promises

Each point has its exact condition, and a run or an input that meets it.

- **int64 wrap-around.** An index whose product with the chunk size leaves int64 can be
  accepted as a chunk (`WrappedIndexIsAccepted`, `WrappedChunkFillsUpload`).
  `ChunkSizeForIsExactIff`, `SplitChunksIsExactIff` and `AcceptedIsTidyIff` say exactly
  when the arithmetic is right; the upload theorems hold for every session for which it
  is. Where the chunk count wraps it is not positive, so such a session can never be
  completed (`OnlyFittingCompletes`); where it wraps to zero, and `WrappedCountIs` says
  exactly when, an upload that has received nothing passes the count check
  (`WrappedCountIsZero`, `EmptyNeverCompletes`).
- **Completing into a deleted namespace.** `CompleteSession` checks that the repository
  is alive, but the blob is put later. Whether that blob is in a namespace RunGC scans
  was settled when the namespace was deleted: exactly when some session there was
  uploading (`LateBlobInOrphanIff`, `OrphanIsSettledAtDeletion`). A session's own blob is
  safe as long as nothing else ends its upload (`LateBlobIsInOrphan`). An Abort in the
  lock gap, or a second Complete that finishes in it, is how it is not
  (`AbortInGapLosesBlob`, `CompleteInGapLosesBlob`). In an orphan, too, the blob keeps
  the reference of its Put, and with it its bytes, until a step releases it
  (`HeldBlobStays`).
- **Publishing is not atomic.** With a run between storing a manifest and tagging it,
  the push is safe exactly when the manifest is still stored when the tag is set
  (`SplitPushIsSafeIff`); for a single sweep in that gap `SweepBeforeTagIff` says when
  that is. `CollectionInGapDangles` reaches the other case.
- **Reference counts are not exact**, although `internal/transfer/push.go` and the
  repository's own README say so. A push releases once per descriptor: it balances its
  uploads exactly for the digests that the manifest names once or that nobody held
  before (`PushBalancesIff`, `PushTakesReference`). The collector releases again when
  the manifest goes: it leaves a count alone exactly when no deleted manifest names the
  digest or nobody held it (`SweepKeepsCountIff`). So it can take the reference of an
  upload in progress, which the comments on GC and Sweep exclude
  (`CollectorTakesReference`). What a client can rely on is `CountDropsIff` and
  `HeldBlobStays`. The safety of tags does not rest on counts at all: the state machine
  even allows arbitrary changes to them.
- **Session states.** `internal/model/session.go` describes a verifying state between
  uploading and committed. Complete enters it only on a copy; no stored session is ever
  in it (`NeverVerifying`).

## Model

| member | source | states |
|---|---|---|
| Theorems.EveryTagCanBeFetched | internal/gc/sweep.go:13-41 | after any run, with marks of any age swept at any time, every tag resolves, every descriptor of every stored manifest names committed bytes with that digest, and every tag can be fetched in full with a live token |
| Theorems.EveryTagResolves | internal/gc/sweep.go:13-41 | after any such run every tag points at a stored manifest of that digest and the ledger is exact, for any digest function |
| Theorems.StaleSweepIsSafe | internal/gc/sweep.go:9-35 | in any reachable state, sweeping any earlier mark deletes no manifest tagged when it starts and leaves no manifest with a missing blob |
| Pulls.PushThenPull | internal/transfer/download.go:11-20 | the manifest round trip: after a push that goes through and any run that neither pushes that tag again nor removes it, pulling the tag gives the payload's manifest, whole |
| Pulls.PushThenFetch | internal/transfer/download.go:39-53 | and a fetch gives one body for each digest the payload names, each with its digest |
| Pulls.NotPushedIsNotFound | internal/transfer/download.go:11-20 | a name never pushed, or removed and not pushed since, is not found after any run, and without a current token nothing is pulled |
| Safety.SweepKeepsIntact | internal/gc/sweep.go:14-35 | a sweep with a covering mark keeps resolution, backing, the exact ledger and soundness of the bytes |
| Safety.MarkCovers | internal/gc/mark.go:11-32 | the blobs of a Mark result cover its manifests for good, whatever is pushed later |
| Safety.TaggedIsReached | internal/gc/sweep.go:27-33 | with an exact ledger the re-marking branch is taken for every tagged manifest |
| Safety.SurvivorIsReached | internal/gc/sweep.go:15-34 | every manifest that survives a sweep has all its blobs reached |
| Safety.SweepKeepsTagged | internal/gc/sweep.go:18-29 | a tagged manifest survives every sweep unchanged |
| Safety.LedgerIndependence | internal/gc/sweep.go:27-33 | if the repository's tags are the same at Sweep as at Mark, no tagged manifest and none of its blobs is collected, whatever the ledger holds |
| Exactness.RunExactly | internal/gc/gc.go:37-43 | an uninterrupted run leaves exactly the tagged manifests and exactly the blobs that are live or keep a positive count, and running again changes nothing |
| Exactness.RunIsCollect | internal/gc/gc.go:37-69 | mark then sweep equals the declarative collection of one namespace |
| Exactness.CollectCompose | internal/registry/registry.go:148-152 | collecting some namespaces and then others is collecting them all: order and repetition do not matter |
| Exactness.RunAllIsCollect | internal/registry/registry.go:145-154 | a list of runs collects exactly the set of listed namespaces |
| Exactness.RunAllOrderIrrelevant | internal/registry/registry.go:145-154 | lists with the same namespaces give the same result |
| Exactness.RunAllLeavesOthers | internal/registry/registry.go:145-154 | namespaces not listed keep their manifests, records and bytes, and all tags stay |
| Collection.DecRefReleases | internal/blob/store.go:172-184 | releasing a digest takes one reference away, never below zero, and nothing when it is unknown |
| Collection.OccurrencesPeel | internal/gc/gc.go:57-69 | the references released by deleting several manifests do not depend on the order of deletion |
| Collectors.GC.constructor | internal/gc/gc.go:25-32 | the collector works on the stores it is given |
| Collectors.GC.Mark | internal/gc/mark.go:11-32 | returns the tagged stored manifests and the digests of their descriptors, in whatever order tags are visited |
| Collectors.GC.AddDigests | internal/gc/mark.go:35-39 | adds a manifest's digests to a reachable set, without the empty digest when called for markBlob |
| Collectors.GC.ReachableManifests | internal/gc/gc.go:46-54 | counts the tag names of every digest, and copies the ledger |
| Collectors.GC.DeleteManifest | internal/gc/gc.go:57-69 | removes the manifest and releases one reference per descriptor; a missing manifest changes nothing |
| Collectors.GC.SweepManifest | internal/gc/sweep.go:15-34 | deletes, keeps or re-marks one manifest according to its tag count, the mark and the ledger |
| Collectors.GC.Sweep | internal/gc/sweep.go:13-41 | the loop deletes exactly the doomed manifests, releases their references and removes the unreached blobs nobody holds, in whatever order manifests are listed |
| Collectors.GC.Run | internal/gc/gc.go:37-43 | marks and sweeps one namespace |
| Collectors.ReleaseDescriptors | internal/transfer/push.go:85-87 | the DecRef loop releases as many references as descriptors name each digest |
| Facades.CollectionIsTwoSteps | internal/gc/gc.go:37-43 | a Mark step and a Sweep step in a row are an uninterrupted run, and in every reachable state they leave exactly what is tagged, live or held |
| Facades.RunAllIsSteps | internal/registry/registry.go:145-154 | RunGC over any list of namespaces is a run of Mark and Sweep steps |
| Facades.CompleteSessionIsSteps | internal/transfer/push.go:109-119 | CompleteSession is a run of steps in every case: none, an Abort, or the three of Complete |
| Facades.OperationsStayReachable | internal/registry/registry.go:57-154 | every facade operation leads from a reachable registry to a reachable one, so what holds in reachable states holds after it |
| Publishing.SplitPushIsSafeIff | internal/transfer/push.go:69-88 | with any runs between storing, tagging and announcing a manifest, the whole invariant is kept exactly when the manifest is still stored when the tag is set, and otherwise the tag dangles |
| Publishing.SweepBeforeTagIff | internal/transfer/push.go:72-77 | after a sweep between storing and tagging in any reachable state, the tag keeps the registry in order exactly when the manifest was tagged already, the sweep was of another namespace or its mark named the manifest |
| Publishing.CollectionInGapDangles | internal/transfer/push.go:72-77 | a concrete run: a collection between storing and tagging leaves the tag dangling |
| Holding.PushBalancesIff | internal/transfer/push.go:58-88 | after one upload per digest and the push, a count is what it was exactly when the manifest names the digest once or nobody held it before; it is never more |
| Holding.SweepKeepsCountIff | internal/gc/gc.go:57-69 | a sweep leaves a count alone exactly when it is zero, of another namespace, or no deleted manifest names the digest |
| Holding.OccurrencesAre | internal/gc/gc.go:65-67 | the references released by deleting manifests are of exactly the digests these name |
| Holding.CountDropsIff | internal/blob/store.go:160-184 | in any state a held blob loses a reference exactly by a dropped reference, by a successful push of a manifest naming it, or by a sweep that deletes one; and it keeps its bytes while it is held |
| Holding.HeldBlobStays | internal/gc/gc.go:12-15 | a held blob keeps its references and its bytes through every run, collections included, with no such step |
| TakenReferences.PushTakesReference | internal/transfer/push.go:85-87 | a concrete run: a push releases the reference of another uploader |
| TakenReferences.CollectorTakesReference | internal/gc/sweep.go:9-41 | a concrete run: the collector removes a blob that an uploader holds and never released |
| Invariants.StepKeepsInv | internal/registry/registry.go:57-154 | every step of the registry keeps content, accounts, token families, marks and pending completions in order |
| Invariants.RunKeepsInv | internal/registry/registry.go:57-154 | so does every run |
| Invariants.PushManifestKeepsIntact | internal/transfer/push.go:61-89 | publishing a manifest keeps every tag resolved and every manifest backed, on every path out |
| Pulls.PushManifestAnswers | internal/transfer/push.go:61-84 | exactly when a push of a manifest goes through, the error of every refusal, and that a refusal changes nothing but for a push without a tag name |
| Pulls.PushManifestLeaves | internal/transfer/push.go:69-88 | a push that goes through stores its manifest, tag and index entry, and changes no other |
| Pulls.ReadyIff | internal/manifest/validate.go:13-48 | both admission checks from the blob records and sessions alone: the first blob lacking decides the error |
| Pulls.PushBlobAnswers | internal/transfer/push.go:48-56 | the record answered is the one now stored; a dead token, a deleted or unknown namespace and empty bytes are refused and change nothing |
| Pulls.PullManifestAnswers | internal/transfer/download.go:11-20 | the stored manifest that the tag points at, or not found, or unauthorized |
| Pulls.FetchAnswers | internal/transfer/download.go:39-53 | a fetch stops at the first blob that cannot be pulled, with its error |
| Pulls.PullBlobInRuns | internal/transfer/download.go:23-35 | in every reachable state bytes are pulled exactly when they are committed, and have the digest asked for; nothing is ever corrupt |
| Pulls.DeadTokenChangesNothing | internal/transfer/push.go:48-63 | without a current token every push and pull is unauthorized and changes nothing |
| Invariants.StoreKeepsIntact | internal/manifest/manifest.go:52-67 | an admitted manifest has its bytes, so storing it keeps the registry intact |
| Invariants.TagKeepsIntactIff | internal/tag/store.go:30-63 | setting a tag keeps the registry intact, and tags resolved, exactly when the manifest is stored or Set refuses |
| TagTables.LedgerOverRuns | internal/tag/store.go:27-93 | after any sequence of updates the ledger holds exactly the positive tag counts, and the revision counts the successful updates |
| TagTables.GetIsLatest | internal/tag/store.go:65-93 | after any updates Get answers what the last update of the name that was not refused made of it |
| TagTables.UpdateAnswers | internal/tag/store.go:30-93 | which updates are refused, and that any other changes the one name or takes it away |
| TagTables.SetKeepsLedger | internal/tag/store.go:30-63 | Set keeps the ledger exact, retargeting and repeating included |
| TagTables.DeleteKeepsLedger | internal/tag/store.go:75-93 | Delete keeps the ledger exact and leaves no zero entry |
| TagTables.LedgerTotal | internal/tag/store.go:27-29 | the ledger of a repository adds up to the number of its tags |
| TagStores.TagStore.constructor | internal/tag/store.go:19-25 | a new tag store is empty |
| TagStores.TagStore.Set | internal/tag/store.go:30-63 | points the tag, moves one reference from the prior digest to the new one, and bumps the revision; empty arguments change nothing |
| TagStores.TagStore.Get | internal/tag/store.go:65-73 | the digest of a tag, or not found |
| TagStores.TagStore.Delete | internal/tag/store.go:75-93 | removes the tag and one reference; an unknown tag changes nothing |
| TagStores.TagStore.List | internal/tag/store.go:95-103 | exactly the repository's tags |
| TagStores.TagStore.Refs | internal/tag/store.go:105-113 | exactly the repository's ledger |
| TagStores.TagStore.Revision | internal/tag/store.go:115-119 | the repository's revision |
| BlobTables.StageKeepsSound | internal/blob/store.go:51-78 | a reservation has no bytes and is not committed |
| BlobTables.PutKeepsSound | internal/blob/store.go:38-116 | bytes are present exactly for committed records and hash to their key, after Put too |
| BlobTables.CommittedIffReadable | internal/blob/store.go:118-147 | committed and readable are the same, and what is read has the digest asked for |
| BlobTables.PutThenGet | internal/blob/store.go:38-132 | a stored content is read back |
| BlobTables.PutAnswers | internal/blob/store.go:100-115 | the record answered is the one stored under the digest of the bytes, with one reference more and the staged size |
| BlobTables.StageAnswers | internal/blob/store.go:51-78 | a reservation is unfinished, unheld, and touches nothing else |
| BlobTables.ReferenceAnswers | internal/blob/store.go:160-184 | taking and releasing a reference change one count by one, never below zero, and nothing else |
| BlobTables.DeleteAnswers | internal/blob/store.go:186-200 | an entry goes exactly when nobody holds it, record and bytes together, and no other goes |
| BlobTables.OnlyItsContent | internal/blob/store.go:118-132 | with a collision-free digest nothing else is ever read under it |
| NestedMaps.ShardPut | internal/blob/store.go:80-116 | writing an entry in its digest's shard writes one entry of the flat table, for every shard count |
| NestedMaps.ShardDrop | internal/blob/store.go:186-200 | deleting an entry from its shard deletes one entry of the flat table |
| BlobStores.BlobStore.constructor | internal/blob/store.go:22-32 | a new store is empty, and has the shards asked for, but at least one |
| BlobStores.BlobStore.Put | internal/blob/store.go:38-116 | commits the digest and counts one reference, keeping a staged size; empty bytes are refused |
| BlobStores.BlobStore.Stage | internal/blob/store.go:51-78 | reserves an unknown digest, and refuses a known one |
| BlobStores.BlobStore.Get | internal/blob/store.go:118-132 | the bytes, unfinished when only a record is there, or not found |
| BlobStores.BlobStore.Exists | internal/blob/store.go:134-139 | whether a record is there |
| BlobStores.BlobStore.Committed | internal/blob/store.go:141-147 | whether a committed record is there |
| BlobStores.BlobStore.RefCount | internal/blob/store.go:149-158 | the reference count, zero for an unknown digest |
| BlobStores.BlobStore.IncRef | internal/blob/store.go:160-170 | one reference more, or not found |
| BlobStores.BlobStore.DecRef | internal/blob/store.go:172-184 | one reference less, never below zero, or not found |
| BlobStores.BlobStore.Delete | internal/blob/store.go:186-200 | removes record and bytes when nobody holds them, and refuses otherwise |
| BlobStores.BlobStore.List | internal/blob/store.go:202-213 | the repository's digests, sorted, each once |
| BlobStores.BlobStore.SweepUnreferenced | internal/blob/store.go:220-239 | removes exactly the unreached records nobody holds, with their bytes, and returns their digests sorted |
| BlobStores.BlobStore.SweepShard | internal/blob/store.go:225-235 | the same for one shard table, in whatever order it is scanned |
| Admission.AdmitIff | internal/manifest/validate.go:13-30 | the descriptors are admitted exactly when all are committed |
| Admission.AdmitError | internal/manifest/validate.go:17-28 | the first uncommitted descriptor decides: unfinished while a session uploads it, not found otherwise |
| Admission.ValidateIffVerify | internal/manifest/validate.go:13-48 | in a sound store a manifest is admitted exactly when it verifies |
| Theorems.AdmissionAgrees | internal/manifest/validate.go:13-48 | so in every reachable state |
| Manifests.ManifestStore.constructor | internal/manifest/manifest.go:44-50 | a new store is empty |
| Manifests.ManifestStore.Validate | internal/manifest/validate.go:13-30 | the loop returns the error of the first descriptor not committed |
| Manifests.ManifestStore.Verify | internal/manifest/validate.go:34-48 | true exactly when every descriptor reads back with its digest |
| Manifests.ManifestStore.Store | internal/manifest/manifest.go:52-67 | stores an admitted manifest under its digest, and otherwise changes nothing |
| Manifests.ManifestStore.Get | internal/manifest/manifest.go:69-76 | the stored manifest, or not found |
| Manifests.ManifestStore.Delete | internal/manifest/manifest.go:83-89 | removes it, or not found |
| Manifests.ManifestStore.List | internal/manifest/manifest.go:91-97 | the repository's manifest digests, each once |
| Model.Parse | internal/manifest/parser.go:11-21 | a parsed manifest is well formed and addressed by the digest of its payload |
| Model.ParseAnswers | internal/manifest/parser.go:11-21 | exactly which payloads parse, with every decoded field kept |
| Model.DigestsAre | internal/model/manifest.go:15-23 | a manifest names the digests of its config and its layers, config first |
| Model.DigestDeterminesManifest | internal/manifest/parser.go:11-21 | with a collision-free digest, manifests with the same digest are the same |
| Theorems.IndexAgreesWithTags | internal/index/index.go:34-57 | unless a tag is removed behind the registry's back, index and tags hold the same names and digests after any run, and every artifact listed is published |
| Theorems.PushKeepsIndex | internal/transfer/push.go:69-84 | a push never sets the tag and then fails to publish |
| Index.IndexStore.constructor | internal/index/index.go:26-30 | a new index is empty |
| Index.AddAnswers | internal/index/index.go:34-57 | what is published, what is refused, and under which name |
| Index.RemoveAnswers | internal/index/index.go:59-65 | the name is gone after Remove, and no other is |
| Index.IndexStore.Add | internal/index/index.go:34-57 | publishes a ready artifact and refuses one that is not |
| Index.IndexStore.Remove | internal/index/index.go:59-65 | removes the artifact, or not found |
| Index.IndexStore.Contains | internal/index/index.go:75-78 | whether the name is listed |
| Index.IndexStore.List | internal/index/index.go:67-73 | every artifact of the repository, each once |
| Chunking.ChunkSizeForIsExactIff | internal/transfer/chunk.go:12-25 | chunkSizeFor is right exactly when the offset product stays in int64 or wraps past the size |
| Chunking.SplitChunksIsExactIff | internal/transfer/upload.go:4-9 | the chunk count is right exactly when its sum stays in int64 |
| Chunking.WrappedIndexIsAccepted | internal/transfer/chunk.go:16-24 | a concrete index outside an upload that gets a full chunk's size |
| Chunking.WrappedCountIs | internal/transfer/chunk.go:124 | the count is positive exactly when its sum stays in int64, and zero exactly when the sum wraps to less than one chunk below zero |
| Chunking.WrappedCountIsZero | internal/transfer/chunk.go:124-129 | two concrete uploads whose count is zero |
| Chunking.ChunksTile | internal/transfer/upload.go:12-22 | chunk ranges are non-empty, as long as chunkSizeFor says, adjacent, and run from 0 to the size |
| Chunking.ChunksPartition | internal/transfer/upload.go:12-22 | every byte lies in exactly one chunk |
| Chunking.ZeroExactlyOutside | internal/transfer/chunk.go:12-25 | chunkSizeFor is zero exactly outside the index range |
| Uploads.AcceptedIff | internal/transfer/chunk.go:43-55 | exactly which chunks are accepted |
| Uploads.AddChunkKeepsTidy | internal/transfer/chunk.go:56-66 | an accepted chunk is stored as sent, listed with its index, offset, length and digest, and counted |
| Uploads.AcceptedIsTidyIff | internal/transfer/chunk.go:46-57 | an accepted chunk belongs to the upload exactly when its offset product stays in int64 |
| Uploads.CountMeansAll | internal/transfer/chunk.go:124-129 | the right number of chunks means every index from 0 to n-1 |
| Uploads.ResumeIsLeastMissing | internal/transfer/chunk.go:73-105 | the resume offset is where the least missing chunk starts, and everything below it is stored |
| Uploads.ResumeNeverDecreases | internal/transfer/chunk.go:69-105 | accepting a chunk never moves it back |
| Uploads.FullnessAgrees | internal/transfer/chunk.go:53-129 | written equals size, the resume offset equals size, the count check passes and every chunk is there: all equivalent while uploading, and written never exceeds the size |
| SessionAnswers.UploadAnswers | internal/transfer/chunk.go:30-55 | the answer to a chunk in exact arithmetic: Ok exactly for a missing chunk of the upload with its exact length, sent with an authorized token, and the error of every refusal |
| SessionAnswers.UploadStores | internal/transfer/chunk.go:56-66 | an accepted chunk is stored as sent and nothing else changes; a refused one changes nothing |
| SessionAnswers.ResumeAnswers | internal/transfer/chunk.go:73-105 | the answer is where the first missing chunk starts, and the full size when none is missing or the session has committed |
| SessionRuns.ChunkAnswersInRuns | internal/transfer/chunk.go:30-55 | so chunks are answered in every state of a run in which nothing wraps |
| SessionRuns.ResumeInRuns | internal/transfer/chunk.go:73-105 | and so resume offsets are |
| UploadRuns.SessionsStayTidy | internal/transfer/chunk.go:30-67 | in every state of a run in which nothing wraps that a session gets accepted, the session is tidy |
| UploadRuns.FullnessInRuns | internal/transfer/chunk.go:53-129 | so the equivalences hold in every such state, and Complete passes its unfinished check exactly when the upload is full |
| UploadRuns.NeverVerifying | internal/model/session.go:5-18 | no session in the table is ever verifying, after any run |
| SessionRuns.SessionsAreGuarded | internal/transfer/session.go:110-121 | in every reachable state a session is shown exactly to a token that is known, unexpired and bound to it; without one every operation on it is unauthorized and changes nothing |
| SessionRuns.AbortedIsGone | internal/transfer/session.go:124-142 | after an Abort and any run nothing of the session is in any table, and every operation on it is not found, or unauthorized |
| SessionRuns.CommittedForGood | internal/transfer/chunk.go:80-119 | a committed session never changes again, resumes at its size, and refuses chunks and Completes |
| SessionRuns.CompleteInRuns | internal/transfer/chunk.go:110-151 | in every state of a run in which nothing wraps, when Complete succeeds and with which error it does not |
| SessionAnswers.AbortAnswers | internal/transfer/session.go:124-142 | Abort takes the session out of every table, touches no other session, blob or token, and takes its push off its namespace |
| SessionAnswers.CompleteLeaves | internal/transfer/chunk.go:148-165 | a Complete that succeeds answers the record now stored for the joined bytes, commits the session and changes nothing else |
| SessionAnswers.CompleteSessionAnswers | internal/transfer/push.go:109-119 | an unauthorized call changes nothing; in a deleted or unknown namespace the session is aborted and gone, and nothing is stored |
| SessionAnswers.CreateAnswers | internal/transfer/session.go:58-106 | which sessions are let in, and the error of every refusal |
| SessionAnswers.RefusedCreate | internal/transfer/session.go:58-91 | a refused Create changes no blob, token, session or count |
| SessionAnswers.AcceptedCreate | internal/transfer/session.go:79-106 | an accepted one adds its empty session, binds its token and counts one push |
| SessionAnswers.CreateReserves | internal/transfer/session.go:73-78 | and leaves a record under its expected digest, reserved with its size if it was unknown |
| RoundTrip.ChunkedRoundTrip | internal/transfer/chunk.go:30-166 | chunks of a content in any order, with rejected chunks between, assemble to the content |
| RoundTrip.NextAccepted | internal/transfer/chunk.go:46-55 | in a delivery exactly the genuine new chunks are accepted |
| RoundTrip.AssembledSize | internal/transfer/chunk.go:130-138 | a full upload assembles to as many bytes as were announced |
| RoundTrip.WrappedChunkFillsUpload | internal/transfer/chunk.go:12-129 | a concrete upload that passes the count check with a chunk missing, once an index product wraps |
| UploadRuns.RunOnlyReceives | internal/transfer/chunk.go:30-67 | through any run in which no Abort of it and no beginning Complete of it is let through, a session changes only by the chunks offered to it |
| UploadRuns.OthersLeaveSessionAlone | internal/transfer/session.go:144-157 | collections, other sessions and refused calls leave its chunks, resume offset and completion unchanged, and its digest counts as uploading |
| UploadRuns.CreatedIsUndisturbed | internal/transfer/session.go:92-106 | an accepted Create leaves its session open and empty, with no completion on its way |
| UploadRuns.CompleteStores | internal/transfer/chunk.go:130-165 | completing a full session commits it and its digest pulls the content |
| UploadRuns.EmptyNeverCompletes | internal/transfer/chunk.go:124-151 | Complete on an upload that has received nothing fails and changes nothing, and which error it is |
| UploadRuns.OnlyFittingCompletes | internal/transfer/chunk.go:124-129 | only a session whose count does not wrap can be completed |
| UploadRuns.CompleteFulfilsReservation | internal/transfer/chunk.go:142-165 | a completed session that expected a digest leaves committed bytes with exactly that digest |
| UploadRuns.DeliveredBegins | internal/transfer/chunk.go:110-140 | after any run that delivers a content to a new session, Complete carries exactly that content across its lock gap |
| UploadRuns.RoundTripInRuns | internal/transfer/chunk.go:30-166 | the round trip with arbitrary other steps during the upload, in the lock gap of Complete, and between its Put and the pull |
| Inflight.CreateKeepsAccounts | internal/transfer/session.go:58-107 | Create keeps the accounts on every path out, failures included |
| Inflight.AbortKeepsAccounts | internal/transfer/session.go:124-142 | Abort takes the session's release with it |
| Inflight.FinishKeepsAccounts | internal/transfer/chunk.go:152-164 | so does the end of Complete, after an Abort or another Complete too |
| Inflight.FiringCounts | internal/repo/store.go:106-114 | a held release always finds a positive counter, so its guard is never needed |
| Inflight.EnterThenRelease | internal/repo/store.go:97-116 | a release called before its session exists undoes Enter |
| Theorems.InflightIsExact | internal/repo/store.go:97-123 | in every reachable state a namespace counts exactly its uploading sessions, each holding its own unfired release, and a namespace deleted with sessions uploading is an orphan |
| Deletions.DeletionIsPermanent | internal/repo/store.go:28-66 | a deleted namespace is never alive again, and an orphan stays one |
| Deletions.AliveIff | internal/repo/store.go:28-80 | after any run a namespace is known exactly when it was created, and deleted exactly when a deletion came after a creation |
| Deletions.OrphanIsSettledAtDeletion | internal/repo/store.go:52-66 | after any run a deleted namespace is an orphan exactly when some session there was uploading when it was deleted |
| Deletions.StillUploadingIff | internal/transfer/session.go:124-142 | a session stops uploading exactly by an Abort that is let through or by the end of a Complete of it |
| Deletions.LateBlobIsInOrphan | internal/transfer/chunk.go:140-164 | while nothing else ends its upload, whatever else happens in the lock gap, what Complete puts into a deleted namespace is in an orphan for good |
| Deletions.LateBlobInOrphanIff | internal/transfer/push.go:106-119 | a blob that Complete puts into a namespace deleted at any earlier moment is in an orphan, then and for good, exactly when some session there was uploading at the deletion |
| LostBlobs.AbortInGapLosesBlob | internal/transfer/chunk.go:140-156 | a concrete run: with an Abort in the gap the blob is committed in a namespace that never becomes an orphan |
| LostBlobs.CompleteInGapLosesBlob | internal/transfer/chunk.go:152-163 | the same with a second Complete that finishes in the gap |
| Facades.CompleteIsThreeSteps | internal/transfer/chunk.go:110-166 | Complete with nothing in its lock gap is its three steps in a row, whether it succeeds or not |
| Repos.RepoStore.constructor | internal/repo/store.go:20-26 | a new store is empty |
| Repos.RepoStore.Create | internal/repo/store.go:28-40 | creates a new name, and refuses an empty or known one, deleted ones included |
| Repos.RepoStore.Delete | internal/repo/store.go:52-66 | marks the namespace deleted, and an orphan when pushes are in flight |
| Repos.RepoStore.Alive | internal/repo/store.go:75-80 | whether the namespace exists and is not deleted |
| Repos.RepoStore.List | internal/repo/store.go:82-93 | the live namespaces, sorted, each once |
| Repos.RepoStore.Enter | internal/repo/store.go:97-116 | counts one push of a live namespace and hands out its release |
| Repos.RepoStore.Release | internal/repo/store.go:106-114 | takes effect once, never below zero |
| Repos.RepoStore.Count | internal/repo/store.go:119-123 | the pushes in flight |
| Repos.RepoStore.Orphans | internal/repo/store.go:128-137 | the orphans, sorted, each once |
| SessionManagers.SessionManager.constructor | internal/transfer/session.go:36-46 | a new manager has no sessions |
| SessionManagers.SessionManager.Reserve | internal/transfer/session.go:73-78 | stages the expected digest; a known one is no error |
| SessionManagers.SessionManager.Register | internal/transfer/session.go:92-106 | enters the session and binds its token, or leaves nothing behind |
| SessionManagers.SessionManager.Create | internal/transfer/session.go:58-107 | opens a session, or releases what it entered |
| SessionManagers.SessionManager.Get | internal/transfer/session.go:110-121 | the session, for a token bound to it |
| SessionManagers.SessionManager.Abort | internal/transfer/session.go:124-142 | removes session and chunks and fires the release |
| SessionManagers.SessionManager.FireRelease | internal/transfer/session.go:137-140 | a release is taken out of the table before it is called |
| SessionManagers.SessionManager.IsDigestUploading | internal/transfer/session.go:148-157 | whether an uncommitted session expects the digest |
| SessionManagers.SessionManager.UploadChunk | internal/transfer/chunk.go:30-67 | stores and records an accepted chunk; a refused one changes nothing |
| SessionManagers.SessionManager.ResumeOffset | internal/transfer/chunk.go:73-105 | the loop computes the resume point |
| SessionManagers.SessionManager.Assemble | internal/transfer/chunk.go:130-138 | sorting the indexes and appending joins the chunks by increasing index |
| SessionManagers.SessionManager.Begin | internal/transfer/chunk.go:110-147 | the checks of Complete, in order, and the joined chunks |
| SessionManagers.SessionManager.Finish | internal/transfer/chunk.go:152-165 | commits the session and fires its release, or not found |
| SessionManagers.SessionManager.Complete | internal/transfer/chunk.go:110-166 | checks, stores and commits |
| Auth.BindingsKeepFamilies | internal/auth/store.go:35-125 | every bound token stays in its session's family |
| Auth.ValidateAnswers | internal/auth/store.go:81-92 | a token is valid exactly when it is known and unexpired |
| Auth.BindAnswers | internal/auth/store.go:113-125 | binding changes the token's session and the session's family, and nothing else |
| Auth.SessionTokenIff | internal/auth/store.go:94-111 | a token works for a session exactly when it is unexpired and bound to it |
| Auth.RenewedTokenKeepsSession | internal/auth/store.go:55-79 | a renewed token keeps the session, even of an expired token, and disturbs no other |
| Auth.RebindingMovesToken | internal/auth/store.go:113-125 | binding a token to a second session takes it away from the first, and not a token renewed before |
| TokenRuns.TokenWorksIff | internal/auth/store.go:94-111 | in every reachable state a token works for a session exactly when it is unexpired and bound to it |
| TokenRuns.TokenServesIff | internal/auth/store.go:94-125 | after any run a token bound to a session works for it exactly while it has not expired and has opened no other session |
| TokenRuns.TokenLives | internal/auth/store.go:35-92 | through any run a token is valid for exactly the time it was issued for, issued at any moment, and unauthorized after |
| TokenRuns.RenewedTokenLives | internal/auth/store.go:55-79 | so is a renewed one, counted from its renewal, and the one it renews keeps its own time |
| TokenRuns.RenewedTokenServesIff | internal/auth/store.go:55-79 | and so does a successor renewed at any time, whatever the renewed token opens later |
| Auth.AuthStore.constructor | internal/auth/store.go:21-27 | a new store is empty |
| Auth.AuthStore.Issue | internal/auth/store.go:35-54 | issues a token of a new family |
| Auth.AuthStore.Renew | internal/auth/store.go:58-79 | issues a successor with the same family and session |
| Auth.AuthStore.Validate | internal/auth/store.go:81-92 | the token, unless it is unknown or expired |
| Auth.AuthStore.ValidateForSession | internal/auth/store.go:96-111 | accepts a live token bound to the session and in its family |
| Auth.AuthStore.Bind | internal/auth/store.go:114-125 | binds token and session, or not found |
| Pipeline.TagsCanBeFetched | internal/transfer/download.go:39-53 | in an intact registry every tag can be fetched: one body for each digest named, no other, each with its digest |
| Pushers.Pusher.constructor | internal/transfer/push.go:27-45 | the pusher works on the components it is wired to |
| Pushers.Pusher.PushBlob | internal/transfer/push.go:48-56 | stores bytes into a live namespace |
| Pushers.Pusher.PushManifest | internal/transfer/push.go:61-89 | admits, stores, tags, verifies, publishes and releases, stopping at the first error with the effects made so far |
| Pushers.Pusher.Publish | internal/transfer/push.go:72-89 | the same from storing on |
| Pushers.Pusher.Announce | internal/transfer/push.go:78-88 | the same from verifying on |
| Pushers.Pusher.CompleteSession | internal/transfer/push.go:109-119 | completes a session of a live namespace, and aborts one of a deleted namespace |
| Pushers.Pusher.PullManifest | internal/transfer/download.go:11-20 | the manifest a tag points at |
| Pushers.Pusher.PullBlob | internal/transfer/download.go:23-35 | the bytes, refused when they do not have the digest |
| Pushers.Pusher.FetchArtifact | internal/transfer/download.go:39-53 | every blob of the artifact, or the first error |
| Registries.Registry.constructor | internal/registry/registry.go:34-55 | a registry over new stores starts in the initial state of the state machine |
| Registries.Registry.CollectEach | internal/registry/registry.go:148-152 | collects the namespaces one after another |
| Registries.Registry.RunGC | internal/registry/registry.go:145-154 | collects exactly the requested namespace and then the orphans in order, touches nothing else, and stays reachable |

## Left out

- HTTP handlers, routing, status codes, the browse page and main: input and output only.
- SHA-256, xxhash, hex encoding and JSON decoding: foreign code, here arbitrary functions.
- Goroutines, mutexes and data races: each facade operation is one step, except that Mark and Sweep are separate steps and Complete is split at its lock gap; PushManifest is taken apart in `Publishing.dfy` only, and a tag update between the collector's List and Refs is not a step of the machine.
- SessionManagers.SessionManager.Begin: does not model that `make([]byte, 0, s.Size)` (internal/transfer/chunk.go:134) panics, with the mutex held, for a size beyond what Go can allocate; only a wrapped count or index lets a session of such a size get that far, and there the model goes on with the chunks it has.
- SessionManagers.SessionManager.Complete: nor does it, since it calls Begin; where the count wraps to zero the model ends with Corrupt or InvalidArgument, as Go does for a size it can allocate.
- Wall-clock timestamps, CreatedAt and UpdatedAt: the clock only decides expiry.
- Slice aliasing: bytes and manifests are immutable values, so sharing a caller's slice is not captured.
- Machine limits other than chunk arithmetic: reference counts, revisions and the written counter are unbounded integers.
- The manifest store without an upload reporter (nil uploads), the repository store's Get and Exists, and the tag store's SortedNames: single branches that nothing else depends on.
- The Artifact MarkGC transition and the shard label's formatting: nothing calls the first, and the second is an injective rendering of the shard number.
- The registry's forwarding methods: they only call the pusher, the stores and the session manager.
- The index store's Remove and the blob store's Delete as steps of the machine: no facade operation calls them; they are covered by their methods.
- Reclamation of every blob: a blob that keeps a positive count stays (`HeldBlobStays`), and counts are not exact.
