# Reeva release server: verified model

Reeva distributes software releases. Operators upload artifacts into bounded storage, a separate
signer signs release manifests after an independent approval, and updater clients may only be
offered releases that are published and, for products that require it, properly signed. Many web
processes and signer replicas write the same databases, and any of them can stop between two
statements. This project models the parts of Reeva that must survive that, and proves what they
promise:

* **Uploads** (`UploadProtocol`, `UploadQuota`, `LateUploads`, `ArtifactStore`, `SoloUploads`):
  reservation, storage, commit and compensation, interleaved with other uploads and cleanups and with
  crashes anywhere, never lose track of a stored object and never exceed a quota, and exactly when an
  attempt that outlives its reservation does.
* **The signer** (`SignerProtocol`, `SignerService`, `SignerOutcomes`, `PayloadParser`,
  `RequestIdentity`): creations, renewals, prunings and approvals on several replicas, with a backend
  whose signature outlives a failed transaction, and the approval behind every signature.
* **Visibility** (`ReleaseVisibility`, `PublicReleases`, `ReleaseService`, `ReleaseOutcomes`,
  `ManifestJson`, `ManifestAcceptance`): which artifacts are public, what makes and unmakes them so, and
  why a signature that raced with an edit stays invisible.
* **Update selection** (`SemVer`, `UpdateSelection`, `VersionFilter`, `VersionInput`): the offered
  release, the pages of the listing and the version filter against semantic version precedence.
* **The rate limiter** (`RateLimiter`, `LimiterRuns`, `LimiterLag`, `LimiterTraffic`,
  `LimiterVerdicts`): what its counters, purges and answers promise when requests overlap, and exactly
  when they do.
* **Smaller cores**: slugs (`SlugAllocator`), file names (`FileNames`), the download header
  (`DownloadHeaders`), the S3 client cache (`ClientCache`) and the codecs under all of this
  (`Base64Url`, `Utf8`, `Decimal`, `Text`).

A protocol is a state machine: a `State`, the `Step`s of all processes, `Enabled` and `Apply` for one
step, and lemmas about every `Run` of possible steps. The objects and tables that the services update
in place are classes, and each method is proved against a specification function; the theorems are
about those functions. `dafny verify dfyconfig.toml` checks everything.

## Assumptions

* The admission of an upload and the transactions of the signer take their statements as separate
  steps under the locks that they hold; every other database transaction is one atomic step. A commit
  waits for the admission that holds its provider's row, because the foreign key of its artifact row
  locks that row too.
* Uploads: UUIDs are fresh, the clock is monotone, quotas are fixed, a failed `storage.upload` leaves no
  object, and a failed transaction did not commit. `AllTimely` says that an attempt reserves, stores and
  commits before its seven-day reservation expires; `LateCommitLosesTheObject` is the run that shows
  that the assumption is needed, `StepIsSafeIff` says exactly which late commits and uploads stay
  consistent in every timely continuation, and `QuotaKeptIff` which late commits keep the quota.
* Signer: `now()` is the start of the transaction. A request's transaction gets the admission lock within
  two days of its start (`ADMISSION_DELAY`); the service itself bounds only the wait for the lock, by six
  seconds. The backend may return any signature that passes the signer's checks.
  A renewal tests the expiry and not the status, so it can move the expiry of a row that was signed
  meanwhile; the expiry is therefore not part of what stays frozen.
* Rate limiter: each statement is atomic. A request takes the time once and binds it into all of its
  statements, so their stamps are not ordered even under a monotone clock; each theorem names what it
  needs of them. `Prompt` is one monotone clock with a greatest lag between a request's time and its
  counter writes.
* Visibility: a Lucid `save()` is one atomic write of exactly the columns that the method assigned, with
  signature, key identifier and snapshot written together; `Artifact.query()` and the other model
  queries skip soft-deleted rows.
* Hashes are symbolic terms, so equal digests have equal preimages; `PreimageInjective` and
  `KeyTextInjective` show that the hashed texts themselves cannot collide. Ed25519 verification is an
  arbitrary function, so the theorems hold for each; `OneMessagePerSignature` is assumed only where a
  lemma names it.
* Text is a sequence of Unicode scalar values, which is what PostgreSQL can store.

## Model

| member | source | states |
|---|---|---|
| UploadProtocol.StepKeepsRows | app/services/artifact_service.ts:126-211 | timely or not, every step of every attempt, cleanup, crash or clock tick keeps the tie between each attempt's stage and the reservation and artifact rows |
| UploadProtocol.StepKeepsInv | app/services/artifact_service.ts:182-213 | every safe step keeps the full invariant, objects and running cleanups included |
| UploadProtocol.TimelyIsSafe | app/services/artifact_service.ts:171-194 | a step that an attempt takes before its reservation expires is safe: no running cleanup can have selected it |
| UploadProtocol.RunKeepsInv | app/services/artifact_service.ts:384-455 | the invariant holds after every interleaving of safe steps of any number of uploads, with crashes between any two steps |
| UploadProtocol.NoOrphanEver | app/services/artifact_service.ts:384-456 | from an empty installation, in every timely run, every stored object has an artifact or reservation row, every artifact row has its object, and no id is in both tables |
| UploadProtocol.CleanupProgress | app/services/artifact_service.ts:187-212 | nobody adds to what a running cleanup has to delete, and each of its rounds strictly shrinks it |
| UploadProtocol.CleanupTerminates | app/services/artifact_service.ts:186-212 | however others interleave in time, a cleanup runs at most as many rounds as rows were expired at its fixed time |
| LateUploads.StepIsSafeIff | app/services/artifact_service.ts:392-432 | for every step, timely or not: all timely continuations stay consistent if and only if the step is safe, that is, a commit's object is stored and in no running cleanup's batch, and an upload's reservation row is there and no running cleanup has passed it |
| LateUploads.RunIsSafeIff | app/services/artifact_service.ts:384-455 | a whole run, timely or not, never puts an object or a row at risk if and only if each of its steps is safe |
| LateUploads.UnsafeCommitLosesTheObject | app/services/artifact_service.ts:197-199 | the continuation in which a running cleanup deletes the object of a late commit |
| LateUploads.UnsafeUploadLosesTheRow | app/services/artifact_service.ts:201-210 | the continuation in which a running cleanup that has passed a late upload drops its reservation row |
| LateUploads.LateCommitLosesTheObject | app/services/artifact_service.ts:171-199 | a concrete possible run from an empty installation in which an attempt outlives its reservation and commits a row without an object |
| UploadQuota.SwapConservesUsage | app/services/artifact_service.ts:406-432 | turning a live reservation into an artifact row leaves the usage of every provider the same |
| UploadQuota.CommitCharges | app/services/artifact_service.ts:406-432 | a commit changes no provider's usage while its reservation is live, and otherwise adds its bytes to its own provider |
| UploadQuota.ReserveCharges | app/services/artifact_service.ts:126-175 | an admission adds exactly the file's bytes to its own provider's usage and nothing to any other |
| UploadQuota.OtherStepsNeverCharge | app/services/artifact_service.ts:143-147 | no other step raises any provider's usage; time passing can only lower it |
| UploadQuota.LockKeepsChargesOut | app/services/artifact_service.ts:127-149 | from the lock on the provider's row to the end of the admission, no other commit or reservation can charge the provider |
| UploadQuota.StepKeepsLocks | app/services/artifact_service.ts:127-150 | statement by statement, at most one admission holds a provider's row, and the sums that it has read are never too low |
| UploadQuota.StepKeepsQuotaIff | app/services/artifact_service.ts:153-165 | a step from a state within the quotas keeps them if and only if it is not a commit whose reservation has expired and whose bytes do not fit |
| UploadQuota.QuotaKeptIff | app/services/artifact_service.ts:126-175 | in every run, timely or not, artifacts plus unexpired reservations are always within each positive quota if and only if every commit fits |
| UploadQuota.QuotaNeverExceeded | app/services/artifact_service.ts:153-165 | with a fixed positive quota, artifacts plus unexpired reservations never exceed it at any moment of any timely run |
| UploadQuota.AdmissionOutcome | app/services/artifact_service.ts:127-166 | an admission succeeds if and only if the provider exists, is active and has no positive quota, or its usage is below 95 percent of it and leaves room for the file; each refusal has its condition in the source's order |
| UploadQuota.ReservationsAreAdmitted | app/services/artifact_service.ts:143-174 | in every run from an empty installation, a reservation is written only at the end of an admission whose sums, and the true usage, are below 95 percent of a positive quota and leave room; it runs for seven days |
| ArtifactStore.Store.SumSizes | app/services/artifact_service.ts:138-150 | the summing loop computes the order-independent total of the selected rows |
| ArtifactStore.Store.ReserveQuota | app/services/artifact_service.ts:126-175 | refuses and reserves exactly as the admission rule on the usage says, in the source's order of errors |
| ArtifactStore.Store.SelectExpired | app/services/artifact_service.ts:188-193 | the batch holds at most 100 distinct expired rows, the oldest first, and is empty only when nothing is expired |
| ArtifactStore.Store.CleanupExpiredReservations | app/services/artifact_service.ts:182-213 | the batched loop ends, and succeeds with exactly the expired rows and their objects gone unless a deletion throws, when it leaves a consistent part of that |
| ArtifactStore.Store.StoreReserved | app/services/artifact_service.ts:390-455 | store, commit and compensation have the effect of the protocol's steps for every combination of failures |
| ArtifactStore.Store.UploadArtifact | app/services/artifact_service.ts:384-456 | an upload's outcome is a function of database, its two times and failures, its effect is all or nothing on the cleaned tables, and the tables stay consistent |
| ArtifactStore.AllOrNothing | app/services/artifact_service.ts:433-455 | the chain of steps after a reservation collapses to one of four outcomes, each consistent |
| ArtifactStore.NothingLeftMeansCleaned | app/services/artifact_service.ts:195-195 | when no expired row is left, the tables are exactly the cleaned form of the original ones |
| ArtifactStore.PartlyCleanedIsConsistent | app/services/artifact_service.ts:197-211 | a cleanup that stops anywhere leaves consistent tables |
| ArtifactStore.CleanedExactly | app/services/artifact_service.ts:188-210 | a cleanup takes exactly the provider's reservations that have expired by its time, the moment itself included, and exactly the objects under them |
| ArtifactStore.CleanupAndQuotaAgree | app/services/artifact_service.ts:143-147 | what a cleanup leaves is exactly what the quota charges, and the cleanup changes no usage |
| SoloUploads.CleanupIsARun | app/services/artifact_service.ts:182-213 | a cleanup that runs alone is a run of the protocol that ends with the cleaned tables |
| SoloUploads.AdmissionIsARun | app/services/artifact_service.ts:126-175 | an admission that runs alone is a run of its statements with the effect of one atomic reservation |
| SoloUploads.StoreIsARun | app/services/artifact_service.ts:390-455 | whatever throws, the part of an upload after its reservation is a timely run of the protocol with the same effect |
| SoloUploads.UploadIsARun | app/services/artifact_service.ts:384-456 | whatever the quota says and whatever throws after the cleanup, a whole upload that runs alone is a timely run of the protocol with the method's effect |
| SoloUploads.FaultFreeUpload | app/services/artifact_service.ts:384-432 | an upload that runs alone without a failure ends with its artifact and object if and only if its provider is active and without a positive quota, or below 95 percent of it with room for the file |
| SignerProtocol.StepKeepsInv | signer/src/main.rs:349-526 | every step of every replica keeps the invariant on rows, audit, locks, open transactions and returned signatures |
| SignerProtocol.RunKeepsInv | signer/src/main.rs:349-526 | the invariant holds after every run of any number of replicas, with crashes anywhere |
| SignerProtocol.SignerPromise | signer/src/main.rs:349-526 | in every run: at most 10,000 rows; one `approved-and-signed` audit row for a signed id and none otherwise; signed rows verify over their decoded payload; every returned signature is the stored one |
| SignerProtocol.SignedRowIsFrozen | signer/src/main.rs:377-392 | no step changes product, payload, key, status or signature of a signed row, or prunes it |
| SignerProtocol.SignedForever | signer/src/main.rs:377-392 | once signed, a row keeps all columns but its expiry through every later run |
| SignerProtocol.RequestKeepsSize | signer/src/main.rs:397-406 | the count under the advisory lock keeps the table within 10,000 rows |
| SignerProtocol.ExpiryMovesOn | signer/src/main.rs:377-407 | across renewals and prune-then-resubmit cycles an id's expiry never goes back, and each request commit moves it strictly on |
| SignerProtocol.OnlyApprovalsSign | signer/src/main.rs:514-521 | a row gains a signature only by the commit of an approval of that row |
| SignerProtocol.CommittingApprovalIsExact | signer/src/main.rs:470-502 | the committing approval names the hash of the payload's bytes, the artifact hash and size in the manifest and the current expiry, not yet passed at its transaction's time |
| SignerProtocol.StaleApprovalNeverSigns | signer/src/main.rs:472-481 | an approval that commits at the end of any run names an expiry no older than any the request had during the run, so none prepared for an earlier generation can sign |
| SignerOutcomes.SignedMeansApproved | signer/src/main.rs:440-521 | in every run from an empty database, behind each signed request stands an approval that a caller sent in that run for it, with the hash of its payload, its artifact's hash and size, and an expiry that it has or had |
| SignerOutcomes.ApprovalOutcome | signer/src/main.rs:456-525 | an approval succeeds if and only if its four values equal the request's, the backend serves the request's key under the custody policy, and the request is signed or unexpired with a verifying signature of 64 bytes and the key still served; what it returns and writes |
| SignerOutcomes.DifferingApprovalIsRefused | signer/src/main.rs:472-481 | an approval that differs in any one of the four values is refused as a mismatch and changes nothing |
| SignerOutcomes.SubmissionOutcome | signer/src/main.rs:354-404 | a submission is accepted if and only if its version is a positive 32-bit number, its payload parses, the backend serves the named key, and the request is kept already or fewer than 10,000 are |
| SignerOutcomes.SubmissionEffect | signer/src/main.rs:377-416 | it removes exactly the unsigned requests more than a day past their expiry, and returns the request unchanged, renewed for a day after its expiry, or inserted for a day, with the matching audit row |
| SignerService.SignerTables.CreateRequest | signer/src/main.rs:349-419 | one submission returns and writes exactly the specified outcome: an invalid version or payload, an unanswered key call, a wrong custody policy, a version outside the enabled range and another fingerprint are refused in that order; then the request is found, renewed, over the limit or inserted; failures change nothing |
| SignerService.SignerTables.Approve | signer/src/main.rs:440-526 | one approval returns and writes exactly the specified outcome, with the source's checks in their order: the row, its payload, the approved values, the key's custody policy, version range and fingerprint, a stored signature, the expiry, the backend's signature, the key again; failures change nothing |
| SignerService.SubmissionIsARun | signer/src/main.rs:367-418 | a submission that runs alone is a run of the concurrent protocol with the specified tables and reply, so every theorem about runs holds of it |
| SignerService.ApprovalIsARun | signer/src/main.rs:456-525 | so is an approval that runs alone, whether it signs or returns the stored signature |
| SignerService.ResubmissionIsIdempotent | signer/src/main.rs:377-396 | submitting the same content again, at any later time for a signed request and up to its expiry for a pending one, returns the same row and removes nothing but prunable rows |
| SignerService.RepeatedApprovalReturnsTheStoredSignature | signer/src/main.rs:489-492 | repeating a successful approval returns the first signature whatever the backend would sign now, and records nothing |
| SignerService.RenewalVoidsApprovals | signer/src/main.rs:386-392 | an approval prepared before a renewal is refused after it |
| PayloadParser.ParseOfPayload | signer/src/main.rs:125-167 | the signer reads the service's payload of any manifest back to the same bytes and manifest, and refuses it only for its length or for a listed value check |
| PayloadParser.ReadersAgreeIff | signer/src/main.rs:110-136 | of every accepted payload, a JSON.parse of the same bytes shows the values that the signer checked if and only if its first character after white space is a brace; every other accepted payload is an array |
| PayloadParser.ArrayPayloadSplitsReaders | signer/src/main.rs:110-136 | every supported manifest is accepted as the array of its values too, and then shows a JSON.parse client no member |
| PayloadParser.ReadersCanDiffer | signer/src/main.rs:110-136 | such a payload written out |
| PayloadParser.ReadFields | signer/src/main.rs:110-124 | the typed reader with denied unknown fields gives back each member of a printed manifest |
| RequestIdentity.PreimageInjective | signer/src/main.rs:317-326 | requests with different product, key identifier or payload bytes have different preimages |
| RequestIdentity.BothLanguagesAgree | app/services/managed_signer_service.ts:25-34 | for every payload that the signer accepts both languages hash the same bytes |
| RequestIdentity.AcceptedMeansVerified | app/services/managed_signer_service.ts:124-164 | whatever the signer answers, an accepted reply is for this product, key, version and payload, and a signature in it verifies |
| RequestIdentity.AcceptedIff | app/services/managed_signer_service.ts:124-164 | an answer is accepted if and only if it is this key's request for this payload, with its identifier and digest, a safe expiry, and either pending without a signature or signed with one that verifies |
| RequestIdentity.ConsumerAcceptsSignerRows | app/services/managed_signer_service.ts:130-155 | a row that satisfies the signer's invariant is accepted if and only if it is for the consumer's key, version and payload |
| RequestIdentity.ReadingIsAccepted | app/services/managed_signer_service.ts:179-185 | in every run of the signer, the stored request for the consumer's payload is accepted and its signature verifies |
| RequestIdentity.ParsedPayloadIsCanonical | signer/src/main.rs:126-134 | payloads that the signer parses pass the service's canonical test and decode to the same bytes |
| ReleaseVisibility.PublicIsProven | app/repositories/artifact_repository.ts:27-53 | if the snapshots in the table are attested, a public artifact of a signed-only product carries a signature over exactly its current manifest under an active key, and gets an envelope |
| ReleaseVisibility.StepKeepsInv | app/services/artifact_service.ts:554-566 | every interleaving of load and save halves, crashes and other changes keeps the signature columns attested |
| ReleaseVisibility.SignedOnlyAlwaysProven | app/services/artifact_service.ts:600-630 | in every run of signature, edit, rebuild, publish, version, revocation and policy operations, whatever is public under a signed-only product is proven |
| ReleaseVisibility.SignedOnlyFromTheStart | app/services/version_service.ts:207-229 | the same from any database without signatures |
| ReleaseVisibility.SqlObjectIsTheManifest | app/repositories/artifact_repository.ts:39-51 | the object built in SQL equals a signed snapshot only when the current manifest exists and is the signed one |
| ReleaseVisibility.ValidSignatureHasCurrentSnapshot | app/services/software_service.ts:166-180 | a stored signature that verifies over the current manifest has the current manifest as its snapshot |
| ReleaseVisibility.RequiringSignaturesKeepsPublicSet | app/services/software_service.ts:145-186 | a successful switch to signed-only updates hides and reveals no artifact |
| ReleaseVisibility.RevokingKeepsPublicSet | app/services/software_service.ts:188-229 | a successful key revocation with its bulk clear hides and reveals no artifact |
| PublicReleases.PublicIff | app/repositories/artifact_repository.ts:13-80 | among attested rows, an artifact is public if and only if it and everything it hangs on are live and, where its product requires it, its signature verifies over the bytes of its current manifest under an active key of the product |
| PublicReleases.UnsignedIsPublicIff | app/repositories/artifact_repository.ts:15-80 | without required signatures, an artifact is public if and only if it and everything it hangs on are live |
| PublicReleases.SwitchingOffHidesExactly | app/repositories/artifact_repository.ts:15-80 | deactivating a product, version or storage, deleting a version, target, storage or artifact, unpublishing or archiving each hide exactly the artifacts that hang on that row |
| PublicReleases.SwitchingBackRestores | app/repositories/artifact_repository.ts:15-80 | undoing such a change gives back the tables and exactly the artifacts that it hid |
| PublicReleases.PublishingMakesPublic | app/services/artifact_service.ts:576-598 | a successful publication makes its artifact public if everything it hangs on is live, and changes the visibility of no other |
| PublicReleases.SigningMakesPublic | app/services/artifact_service.ts:611-627 | a successful signature makes a live artifact public, signed-only product or not |
| PublicReleases.SignedProductsKeepAKey | app/services/software_service.ts:199-206 | a revocation leaves a product that requires signatures with another active key, and the switch to signatures needs one |
| PublicReleases.VersionTextReads | app/services/ota_release_signature_service.ts:73-73 | the signed version splits at its dots into major, minor and patch, in this order |
| PublicReleases.EnvelopeOutcome | app/services/ota_release_signature_service.ts:126-142 | an envelope is delivered if and only if the row is signed and its snapshot is the current manifest's; its signature then verifies over its payload, signed-only product or not |
| PublicReleases.EnvelopeShowsTheRelease | app/services/ota_release_signature_service.ts:64-94 | every delivered envelope reads back to the artifact's columns under their names, and to the version that the update check compares |
| PublicReleases.SignedVersionIsTheOffered | app/services/updater_service.ts:54-92 | under a signed-only product, the version that a client reads out of what it verified is the offered one, and later than its own |
| ReleaseService.ReleaseTables.SetArtifactSignature | app/services/artifact_service.ts:600-630 | succeeds exactly when the signature verifies over the current manifest under an active key of the product, writes the three columns together, and otherwise changes nothing |
| ReleaseService.SignatureIsLoadable | app/services/artifact_service.ts:611-627 | what the method checks and carries is a load of the concurrent model, and the parsed payload is the current manifest's object |
| ReleaseOutcomes.SignOutcome | app/services/artifact_service.ts:600-630 | a signature is accepted if and only if it verifies over the bytes of the current manifest under an active key of the product; it writes the three columns together |
| ReleaseOutcomes.ManifestOutcome | app/services/ota_release_signature_service.ts:53-69 | the manifest can be built exactly from live rows with a safe size and a lower-case SHA-256 |
| ReleaseService.ReleaseTables.ImportManagedSignature | app/services/artifact_service.ts:650-665 | imports exactly the signed replies for the current manifest whose signature passes the ordinary test, and otherwise changes nothing |
| ReleaseService.ApprovedManifestsAreImportableIff | app/services/artifact_service.ts:657-664 | whatever row any run of the signer has signed for an artifact's current manifest under an active key of the product can be imported if and only if that key is still the one that the signer names as its latest; after a rotation it is not found |
| ReleaseService.ReleaseTables.UpdateArtifact | app/services/artifact_service.ts:517-568 | refuses unknown rows, unsupported targets, inactive products and occupied or oversized rows; otherwise saves the edit with a rebuilt name and no signature, and keeps both unique constraints |
| ReleaseService.EditHidesUntilSigned | app/services/artifact_service.ts:554-566 | under a signed-only product an edited artifact is not public until it is signed again |
| ReleaseService.ReleaseTables.PublishArtifact | app/services/artifact_service.ts:576-598 | succeeds exactly for an unpublished, unarchived artifact with a valid signature where one is required, and sets only the flag |
| ReleaseService.ReleaseTables.SetRequireSignedUpdates | app/services/software_service.ts:145-186 | the loop over published releases accepts exactly when every one is validly signed under an active key, and writes only the policy |
| ReleaseService.ReleaseTables.RevokeSigningKey | app/services/software_service.ts:188-229 | refuses the last key and keys in use, and otherwise deactivates the key and clears its signatures in the product |
| ReleaseOutcomes.PublishOutcome | app/services/artifact_service.ts:584-597 | a publication succeeds if and only if the artifact is live with its product, neither published nor archived, and signed now where that is required; it sets one flag |
| ReleaseOutcomes.RequireOutcome | app/services/software_service.ts:149-180 | signatures can be required if and only if the product has an active key and each published, unarchived artifact under its active versions is signed now |
| ReleaseOutcomes.RevokeOutcome | app/services/software_service.ts:188-219 | an active key can be revoked unless signatures are required and no other key is active or a release is signed with it |
| ReleaseOutcomes.RevocationEffect | app/services/software_service.ts:221-228 | a revocation switches one key off and takes exactly its signatures off the product's artifacts |
| ReleaseOutcomes.EditOutcome | app/services/artifact_service.ts:517-568 | an edit succeeds if and only if the channel is known, all rows are live, the target supported, the product active, the name short enough and the combination free; it writes the form and the name and takes the signature off |
| ReleaseOutcomes.SupportsOutcome | app/services/artifact_service.ts:532-539 | only a platform that spells android in any case refuses an architecture, and exactly one with x86 or x64 in its name in any case |
| ReleaseOutcomes.ExtensionIsKept | app/services/artifact_service.ts:541-541 | the extension is what follows the last dot, or bin when that is empty |
| ReleaseService.ReleaseTables.UpdateVersion | app/services/version_service.ts:191-231 | refuses malformed or taken numbers, keeps the versions unique, and clears the signatures exactly when a column of the manifest changes |
| ReleaseService.UpdateKeepsSignedManifests | app/services/version_service.ts:207-229 | after a version update, whatever is still signed shows the manifest that it showed before |
| ReleaseService.UpdateClearsExactly | app/services/version_service.ts:207-229 | an update clears the signatures of exactly the version's own artifacts, and only if a number, the codename or the changelog changes |
| ReleaseService.ReleaseTables.RebuildOne | app/services/artifact_service.ts:718-757 | one turn of the rebuild loop saves the new name and checksum without the signature, or nothing |
| ReleaseOutcomes.RebuildEffect | app/services/artifact_service.ts:729-756 | a turn sets the name, and the checksum that could be read, and takes the signature off exactly when it sets something |
| ReleaseService.ReleaseTables.RebuildAllNames | app/services/artifact_service.ts:708-761 | the loop rebuilds every live row independently of their order and counts exactly the saved ones |
| ReleaseService.RebuiltIsSaved | app/services/artifact_service.ts:729-756 | a row that stays signed is unchanged, and every other turn is a save of the concurrent model |
| ReleaseService.NextVersion | app/services/version_service.ts:253-284 | a form is valid if and only if each of its fields is; each number, text and flag of the row comes from its own field, and product and deletion stay |
| VersionInput.PartIsRead | app/services/version_service.ts:253-268 | a part is one to nine digits, and the decimal form of every number below a thousand million is read as that number |
| VersionInput.TextsAreKept | app/services/version_service.ts:270-284 | codenames up to 100 and changelogs up to 20,000 UTF-16 units are accepted, and stored trimmed and as they are; only blank ones become null |
| ManifestJson.ManifestRoundTrip | app/services/ota_release_signature_service.ts:85-94 | reading the signed bytes of any manifest gives exactly its members back |
| ManifestJson.ReadPrintedText | app/services/ota_release_signature_service.ts:90-94 | the compact printer and the JSON reader undo each other for every member list, string escapes and order included |
| ManifestJson.ReadEscapedChar | app/services/ota_release_signature_service.ts:90-94 | each escape of section 7 of RFC 8259 that the printer uses reads back as its character |
| ManifestJson.ManifestText | app/services/ota_release_signature_service.ts:64-94 | the signed text written out: the eleven members in their order without white space, absent texts as null |
| ManifestJson.EscapeForms | app/services/ota_release_signature_service.ts:90-94 | only quotation mark, backslash and control characters are escaped, each in the shortest form of section 7 of RFC 8259 |
| ManifestJson.SnapshotTestIsExact | app/services/ota_release_signature_service.ts:126-136 | the member-by-member snapshot test holds if and only if the signed bytes are those of the current manifest |
| ManifestAcceptance.SignerReadsServiceManifests | signer/src/main.rs:135-166 | the signer accepts a manifest built from service-validated rows if and only if the payload has at most 120,000 characters and the target names are non-empty, control-free and at most 100 bytes |
| ManifestAcceptance.AcceptedIff | signer/src/main.rs:125-167 | the signer accepts the service's payload of a manifest for a product if and only if it has at most 120,000 characters and every value is one of those written out, the version being three numbers below 2^31 without leading zeros between dots |
| ManifestAcceptance.LongTargetNameIsRefused | signer/src/main.rs:145-147 | a platform name of 50 characters, which its column admits, that the signer refuses |
| ManifestAcceptance.VersionTextIsVersion | app/services/ota_release_signature_service.ts:73-73 | printed version triples have three parts without leading zeros below 2^31 |
| ManifestAcceptance.EnteredVersionFits | app/services/version_service.ts:253-284 | what the version service accepts is within the signer's limits on numbers, codename and changelog |
| ManifestAcceptance.EnteredFileNameFits | app/services/artifact_service.ts:220-229 | file names that fit their column pass the signer's file name check |
| FileNames.SafeFilePart | app/services/artifact_service.ts:215-218 | a part is never empty, at most 100 characters of the safe alphabet, and does not start with a dash |
| FileNames.CleanPartsAreKept | app/services/artifact_service.ts:215-218 | the clean-up leaves a name unchanged if and only if it is already clean and short enough |
| FileNames.RunsBecomeDashes | app/services/artifact_service.ts:215-218 | each run of other characters becomes one dash and safe characters stay |
| FileNames.NothingToKeep | app/services/artifact_service.ts:217-217 | a name without anything to keep becomes release |
| FileNames.FileNameIsSafe | app/services/artifact_service.ts:220-229 | whatever the names contain, the file name has no separator and no control character |
| FileNames.FileNameParts | app/services/artifact_service.ts:220-229 | at its underscores a name splits into clean product, platform, architecture and version with extension, in this order, when those hold no underscore |
| FileNames.VersionPartReads | app/services/artifact_service.ts:220-229 | the version part is v and the three numbers in their order between dots, and the codename behind a dash |
| SemVer.PrecedenceIsTotalOrder | app/services/updater_service.ts:42-43 | precedence of section 11 of Semantic Versioning 2.0.0, pre-releases included, is a strict total order |
| SemVer.LessIff | app/services/updater_service.ts:42-43 | precedence is rule 11 itself: the first of major, minor and patch that differs, then a pre-release before its release, then the first pre-release identifiers that differ, or the list that ends first |
| UpdateSelection.NewerIsPrecedence | app/services/updater_service.ts:60-83 | the WHERE clause of the update check selects exactly the releases after the client's version |
| UpdateSelection.UpdateIsTheLatestWhenNewer | app/services/updater_service.ts:54-116 | the check offers an artifact exactly when the latest release is newer than the client, and then that release |
| UpdateSelection.CheckAgreesWithLatest | app/controllers/api/updater_controller.ts:147-148 | the check and the latest endpoint agree on every request, unknown products and targets included |
| UpdateSelection.OfferedIsAsked | app/services/updater_service.ts:54-116 | whatever either endpoint offers is public and has exactly the product, platform name, architecture name and channel that were asked for |
| UpdateSelection.CheckFails | app/controllers/api/updater_controller.ts:66-106 | the check fails exactly for an unreadable version, then a missing product, then a platform or architecture name that no live target has |
| UpdateSelection.NewerIsOffered | app/services/updater_service.ts:54-92 | a public artifact for what was asked that is newer than the client makes the check offer a release at least as new |
| UpdateSelection.UpdatedClientIsCurrent | app/services/updater_service.ts:54-92 | re-checking at the offered version returns nothing |
| UpdateSelection.SortedIsUnique | app/services/updater_service.ts:145-148 | the four sort keys leave the database no choice of order |
| UpdateSelection.SortRows | app/services/updater_service.ts:136-148 | the listing holds exactly the eligible rows, each once, in order |
| UpdateSelection.PagesAreTheListing | app/services/updater_service.ts:150-164 | the pages of one database state, one after the other, are the sorted eligible artifacts without loss or repeat |
| UpdateSelection.PagesCover | app/services/updater_service.ts:152-163 | each of the total number of pages is non-empty and within the limit, and every later page is empty |
| UpdateSelection.ListedIsAsked | app/services/updater_service.ts:118-164 | the listing holds an artifact if and only if it is public and has exactly the query's product, platform, architecture and channel |
| UpdateSelection.LatestComesFirst | app/services/updater_service.ts:103-116 | the latest release is the first row of the listing |
| UpdateSelection.EligibleDiffer | database/migrations/1777100000000_add_software_products.ts:46-46 | under the unique constraints two eligible artifacts of one query never have the same version |
| VersionFilter.ScanIsSound | app/services/version_service.ts:18-19 | what the matcher accepts is in the language of the regular expression and its pieces spell the input |
| VersionFilter.ScanIsComplete | app/services/version_service.ts:18-19 | the matcher accepts every text of the language and finds its pieces |
| VersionFilter.SpelledIsParsed | app/services/version_service.ts:21-41 | an input of the grammar is refused exactly for a part of more than nine digits or a star after an order operator |
| VersionFilter.ParsedIsSpelled | app/services/version_service.ts:19-21 | every other input is refused |
| VersionFilter.FilterFollowsPrecedence | app/services/version_service.ts:43-88 | the filter selects exactly the releases in the given relation to the version under semantic version precedence, or those sharing its starred parts |
| RateLimiter.AuthLimiter.IncrementCounter | app/services/auth_service.ts:117-135 | the upsert starts an ended window again, counts a running one on, and returns the row's attempts |
| RateLimiter.AuthLimiter.IsAuthRequestThrottled | app/services/auth_service.ts:102-147 | verdict and counters are those of the specified request, the identity counter untouched when the address is over its limit |
| RateLimiter.AuthLimiter.ClearLoginAttempts | app/services/auth_service.ts:149-155 | removes the two login counters and nothing else |
| RateLimiter.KeyTextInjective | app/services/auth_service.ts:161-163 | different counters hash different texts |
| LimiterRuns.PurgesAreInvisibleIff | app/services/auth_service.ts:115-145 | deleting ended counters changes no answer of a run if and only if no purge whose time reaches a window's end runs before an upsert of that key stamped inside that window |
| LimiterRuns.PurgeCanBeVisible | app/services/auth_service.ts:138-145 | two overlapping requests, one purge: a ninth login attempt of a minute is answered as the first |
| LimiterRuns.AnswersCountTheWindowIff | app/services/auth_service.ts:117-134 | after a run without late upserts of a key, its next answer is the position in the current window of that key's own history if and only if it is not late |
| LimiterRuns.WindowsAreDisjointIff | app/services/auth_service.ts:123-132 | between two clears of a key, each of its windows opens at or after the end of the one before if and only if none of its upserts is late |
| LimiterRuns.MinuteBoundIff | app/services/auth_service.ts:108-134 | for every n: a half-open minute of stamps admits at most n times any limit under any traffic at the moments of a run, if and only if its stamps are counted in at most n windows |
| LimiterRuns.TwiceTheLimit | app/services/auth_service.ts:108-134 | a minute admits at most twice a key's limit when the key is not cleared, none of its upserts is late, and none is counted in a window opened after its stamp |
| LimiterRuns.OvertakenUpsertsBreakTwice | app/services/auth_service.ts:115-145 | a run with a lag of one millisecond in which purges overtake upserts and a minute admits 14 of a limit of 5 |
| LimiterRuns.StragglersBreakTwice | app/services/auth_service.ts:123-132 | a run without any purge in which a minute admits 13 of a limit of 5, so absence of late upserts is not enough for twice the limit |
| LimiterRuns.LagBoundsTheMinute | app/services/auth_service.ts:108-145 | if every counter is written at most a lag after its request began, a minute admits at most n times the limit once n - 1 windows less the lag cover a minute plus the lag |
| LimiterRuns.TwoOrThreeTimesTheLimit | app/services/auth_service.ts:108-145 | twice the limit without lag, three times with a lag of up to twenty seconds |
| LimiterLag.LagBoundIff | app/services/auth_service.ts:108-145 | for every lag shorter than the window and every n: all prompt runs without a clear admit at most n times every limit in a minute if and only if n - 1 windows less the lag cover a minute plus the lag |
| LimiterTraffic.StepKeepsInv | app/services/auth_service.ts:102-147 | every statement of every overlapping request, each with the time it took at its start, keeps the invariant that ties requests and identity writes to distinct counts of their address windows |
| LimiterTraffic.OneAddressIsBounded | app/services/auth_service.ts:136-142 | in each window of its counter one address causes at most its own limit of identity-counter writes, however any number of requests overlap, die or lag, and whatever is purged or cleared |
| LimiterTraffic.TrafficRunsItsStatements | app/services/auth_service.ts:117-145 | overlapping requests leave exactly the counters of their statements in database order, so every theorem about runs holds of them |
| LimiterTraffic.TrafficIsBounded | app/services/auth_service.ts:102-147 | the minute's bound for a stated lag holds of the counted attempts in every run of overlapping requests |
| LimiterVerdicts.AnswersFollowTheCounts | app/services/auth_service.ts:102-147 | in every run of overlapping requests, a finished request is answered throttled if and only if its own upsert was more than the 30th login or 20th reset in its address window, or more than the 8th or 5th in its identity window |
| LimiterVerdicts.LetThroughIsBounded | app/services/auth_service.ts:108-147 | of one identity's requests begun within one minute at most n * 8 logins and n * 5 resets are let through, for any lag and n as in LagBoundIff |
| LimiterVerdicts.ThrottleOutcome | app/services/auth_service.ts:108-146 | a lone request is throttled exactly from the 31st login or 21st reset of its address, or the 9th login or 6th reset of its identity, in the stored windows |
| LimiterTraffic.SoloRequestIsARun | app/services/auth_service.ts:136-146 | the method's verdict and counters are those of a request that runs alone |
| SlugAllocator.SafeSlug | app/services/software_service.ts:16-27 | for every name the result is a slug of at most 80 characters |
| SlugAllocator.SafeSlugFromWords | app/services/software_service.ts:16-27 | the slug is the name's words joined by single dashes, cut at 80 characters, or `software` |
| SlugAllocator.SlugIsWords | app/services/software_service.ts:21-22 | slugs are exactly the texts of the form `[a-z0-9]+(-[a-z0-9]+)*` |
| SlugAllocator.CandidatesDiffer | app/services/software_service.ts:76-79 | candidates with different suffixes differ |
| SlugAllocator.TakenCandidates | app/services/software_service.ts:75-80 | pigeonhole: at most as many candidates are taken as slugs exist |
| SlugAllocator.FreeSlug | app/services/software_service.ts:73-80 | the loop ends with the base or the first free candidate, with a suffix of at most the number of slugs plus two, and the result is a slug the signer accepts |
| SlugAllocator.TakenBaseGetsTheLeastNumber | app/services/software_service.ts:73-80 | a taken base gets a dash and the decimal of the least number from two on that is free, behind as much of the base as fits into 80 characters |
| SlugAllocator.SoftwareTable.Create | app/services/software_service.ts:64-93 | creation refuses names outside 1 to 120 characters and otherwise adds exactly one fresh slug |
| SlugAllocator.SlugIsValid | signer/src/main.rs:94-102 | the signer accepts every slug that creation can store |
| Base64Url.EncodeDecode | app/services/ota_release_signature_service.ts:90-94 | decoding an encoding gives the bytes back and drops no bits |
| Base64Url.DecodeEncode | app/services/ota_release_signature_service.ts:110-114 | re-encoding gives the text back if and only if no non-zero bits were dropped |
| Base64Url.BothServicesAgree | signer/src/main.rs:126-134 | the lenient test of the service and the strict test of the signer accept exactly the same payload texts and decode them alike |
| Base64Url.EncodedIsAccepted | signer/src/main.rs:126-134 | the encoding of any non-empty bytes within the size limit is accepted |
| Base64Url.SignatureTextLength | app/services/ota_release_signature_service.ts:105-113 | 86 characters decode to 64 bytes, and are canonical exactly when the last four bits are zero |
| Base64Url.SymbolIsTheAlphabets | app/services/ota_release_signature_service.ts:90-94 | the symbol of a value is the character at its place in the alphabet of table 2 of RFC 4648 |
| Base64Url.EncodeSpellsTheBytes | app/services/ota_release_signature_service.ts:90-94 | an encoding, read by the alphabet as a number in base 64, is the bytes read in base 256 followed by the padding's zero bits |
| Utf8.DecodeEncode | app/services/download_headers.ts:8-8 | UTF-8 decoding undoes encoding for every sequence of scalar values |
| Utf8.LengthBound | signer/src/main.rs:161-162 | a text takes between one and four bytes per scalar value |
| Decimal.NumberOfDigits | app/services/ota_release_signature_service.ts:73-73 | reading a printed number gives it back |
| DownloadHeaders.ReadEncoded | app/services/download_headers.ts:8-11 | only attr-chars and escapes appear, and undoing the escapes gives the UTF-8 bytes of the sanitised name |
| DownloadHeaders.ClientReadsTheName | app/services/download_headers.ts:2-14 | a client that parses the header finds the fallback closed at its own quote and decodes the extended name to the sanitised file name |
| DownloadHeaders.HeaderIsPrintable | app/services/download_headers.ts:3-7 | the header holds printable ASCII only |
| DownloadHeaders.FallbackKeepsPlainNames | app/services/download_headers.ts:7-7 | the fallback is the name itself if and only if no character needs replacing |
| ClientCache.Cache.GetClient | app/services/storage/providers/s3_compatible_provider.ts:16-61 | returns a live client built for the configuration, moves it to the end, keeps at most 32, and destroys only the least recently used one, never the one returned |
| ClientCache.Cache.AddClient | app/services/storage/providers/s3_compatible_provider.ts:35-58 | a miss caches a new client and evicts the first only beyond 32 |
| ClientCache.Cache.DropOldest | app/services/storage/providers/s3_compatible_provider.ts:53-57 | destroys and forgets exactly the client inserted first |
| ClientCache.Cache.Shutdown | app/services/storage/providers/s3_compatible_provider.ts:63-66 | destroys exactly the cached clients and empties the cache |
| ClientCache.CacheIsLeastRecentlyUsed | app/services/storage/providers/s3_compatible_provider.ts:20-58 | over every call sequence the cache is the last 32 of the recency list |
| ClientCache.RecencyIsByLastUse | app/services/storage/providers/s3_compatible_provider.ts:21-25 | the recency list orders fingerprints by their last use |
| ClientCache.CachedMeansRecent | app/services/storage/providers/s3_compatible_provider.ts:51-58 | a fingerprint is cached if and only if it was used and fewer than 32 others were used since |

## Left out

- HTTP routes, authentication, sessions, mail, Docker, migrations as code, views, benchmarks and verification scripts: configuration and transport.
- The cryptography itself, PEM and DER handling, OpenBao and S3 calls, TLS, semaphores and timeouts of the signer: foreign code behind the assumptions above. Strict and non-strict Ed25519 verification are one function here.
- Unicode NFKD and mark stripping: slugs and file names start from an arbitrary normalised character sequence.
- The statements inside a commit and inside a cleanup's deletion of rows: one step each, at the moment at which the transaction makes them visible.
- License activation, default product and default provider flags, auth-version checks, password resets and dashboard figures: short arguments under one row lock.
- S3 configuration and local path handling: field checks over opaque libraries.
- ReleaseService.ReleaseTables.UpdateArtifact: the product's display name is a parameter; the form's identifier syntax is not modelled.
- Float percentages of the quota check: `usage * 100 >= 95 * quota` over integers.
- Parsing a client's version text: `UpdateSelection` starts from the parsed version. A part beyond 2^31 - 1 would be refused by PostgreSQL as a query parameter; the model compares it as a number.
- ManifestJson.ReadPrintedText: the reader covers flat objects and arrays of strings, null and unsigned integers, which are all that a manifest may hold; an escaped surrogate without its partner is refused, as the signer does and JSON.parse does not.
- SlugAllocator.FreeSlug: requires fewer than 2^53 - 2 products, up to which a JavaScript counter is exact.
- RequestIdentity.ReadingIsAccepted: requires an expiry that is a safe JavaScript integer, which the consumer demands.
- RequestIdentity.AcceptedMeansVerified: replies have the JSON types of a signing request; a mistyped reply is refused before the modelled checks.
- ReleaseService.ReleaseTables.RebuildAllNames: the rebuilt names and the checksums of the files that could be read are parameters; a name is given for every live row.
