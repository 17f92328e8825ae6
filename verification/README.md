# GDS trust distribution: a verified model

The repository runs an OPC UA Global Discovery Server (GDS) and an agent on the
OT side. The server keeps versioned trust lists and publishes them as signed,
numbered artifacts. The agent pulls them, refuses replays, and rewrites the PKI
files of running OPC UA servers. This project models that logic in Dafny and
proves what the two sides promise each other and the operators.

`dafny verify dfyconfig.toml` checks the whole project.

## The modules

| file | models |
|---|---|
| `Common`, `Numbering` | text and sorting helpers; MAX+1 numbering of table rows, used for list versions, artifact revisions and package generations |
| `Artifacts` | building, signing and verifying a trust artifact |
| `TrustTables` | the tables behind trust lists: which certificate stands for an application, who is on a list, when a new version is published |
| `Publication`, `PublicationRuns` | regenerate-or-cache as a step, its invariant, whole runs of atomic steps |
| `Contents` | what a publication contains, stated on table columns: the chosen certificates, their entries, the other fields, when and why a call rebuilds |
| `Interleaving` | the same call split at its lock, any number of calls in flight |
| `GdsServer` | the same operations as methods that update tables, cache and clocks in place, proved equal to the functions above |
| `AgentSync` | the agent's signed sync cycle, against any network and against an honest server |
| `Replay` | the agent against interleaved calls: torn reads, and exactly when a replay alarm is false |
| `Scenarios` | runs and histories, from an empty installation or one published list, in which the conditions of those theorems fail |
| `Lifecycle`, `Lineage` | the package state machine; generations, supersedes links and signed manifests under concurrent issuers |
| `CrlFiles`, `CrlApply` | the two CRL transactions on the file tree |
| `Paths`, `Activation`, `Quarantine` | path classification; live activation and revocation quarantine on a disk that may fail or corrupt any copy |
| `TrustDiff` | the report on two trust lists and its risk level |
| `RateLimiter` | the fixed-window limiter of the OPC UA facade |

Two substrates are shared. A table is a sequence of rows with its uniqueness
rules, a row's id is its position. A file tree is a map from path to bytes.
Hashing is injective (a digest is its preimage). A signature verifies for
exactly the payload that was signed. Time is in integer microseconds; the clock
is a parameter of every step that reads it.

Where the source works step by step (the sync cycle, the regeneration, the CRL
helpers, activation, quarantine, the diff, the limiter) the model is a class or
a method with loops. Its contract ties it to a function of the old state, or
states the property outright, and the lemmas are about that function. Loops over
directory listings and sets visit their elements in an arbitrary order, so what
is proved holds for the sorted order the source uses.

What an operation does is stated a second time without its own functions, on
table columns, document fields, the constructors of a parsed CRL and the
characters of a path, and proved of the same methods or functions:
`RebuiltEntriesDescribeChosen`, `CallRebuildsIff` and `RebuiltRowIsPublishedAs`
for publication, `CycleLeaves` and `AcceptedIff` for the sync cycle, `Gated`,
`Succeeded` and `FailureIsReal` for activation, `TrustPassesIff` and
`TrustLeavesSound` for the CRL stage, `CertificateMarked` and `PackagesMoved` for
revocation, `EnsuredListIsChosen` for the trust list, `Plans` and `LeavingIs` for
quarantine, `Issues` for packages, `UpdateTakesTheLater` for the lifecycle,
`Compares`, `Explains` and `Rates` for the diff.

## What the proofs found

Where the code does not meet a stated or expected property, the model keeps the
code. A theorem says exactly when the property fails, and a run, history or tree
shows that it does.

- **Throttled answers.** A throttled call returns the newest stored artifact
  even when a certificate on it has been revoked (`UnusableServedIff`). A
  revocation within the throttle interval of the last rebuild is always answered
  that way (`RevocationWithinThrottleIsServed`; from an empty installation:
  `RevokedIsServedWithinThrottle`). Expired artifacts are returned in the cases
  of `ExpiredServedIff`; with a threshold of zero percent age never renews
  (`ZeroThresholdServesExpired`).
- **Overlapping rebuilds.** The trust list is read before the lock. Two
  overlapping forced rebuilds can store an older version under a newer revision
  (`OverlappingRebuildsInvertVersions`; `RebuildKeepsOrderIff` is the condition).
  An agent that holds the earlier row then reports a replay for an honest pull
  exactly while its request is not renewed, that is, throttled or Vault sealed,
  and the newest row has the older version (`PullReportsReplayIff`;
  `HonestPullLooksLikeReplay` is such a pull). The same holds with other calls'
  sections inside and between its requests (`InterleavedPullReportsReplayIff`);
  so a rebuild that completes during the pull can cause the alarm
  (`RebuildDuringPullLooksLikeReplay`). The first request that may renew serves a
  pair no smaller than any stored one (`ServedBehindIff`).
- **Revocation during a call.** A call in flight at a revocation publishes the
  revoked certificate after it exactly when it will rebuild and what it read, or
  is about to read, names it (`StaleReadPublishesRevoked`,
  `UnreadCallPublishesRevoked`; from an empty installation:
  `StaleRebuildNamesRevoked`). Calls begun afterwards cannot
  (`RevokedForeverUnderInterleaving`).
- **Duplicates republish.** One certificate standing for two applications makes
  every "ensure" publish a new list version (`EnsureAgainIff`,
  `ForeignPackageRepublishes`).
- **CRL rollback is partial.** `gds-agent/README.md` line 930 says rollback
  restores the previous state. The code rewrites what it snapshotted and deletes
  nothing, so aliases that were absent before stay behind
  (`TrustRollbackCompleteIff`, `PackageRollbackCompleteIff`; on empty
  directories: `StaleDeliveryLeavesAliases`, `StalePackageLeavesFiles`).
- **CRL failures without rollback.** On the trust-only path a CRL that does not
  decode is noticed after the clean-up, and nothing is restored
  (`DecodeFailureKeepsDeletions`; a tree: `DecodeFailureDeletesAlias`). The
  package path decodes first and touches nothing (`PackageDecodeFailureIsClean`).
  On both paths a CRL file that cannot be read stops the stage after the writes
  (`TrustReadFailsIff`, `PackageReadFailsIff`; a tree: `UnreadableFileLosesAlias`).
- **Aliases that cannot be deleted.** A failing `unlink` is only logged. A stale
  alias left that way, and not rewritten, fails the stage (`TrustApplySucceedsIff`,
  `StuckAliasBlocks`; a tree: `StuckRootBlocks`). While every alias can be
  deleted, stale ones never block it (`StaleAliasesNeverBlock`).
- **The decoded twin.** The package path writes `current.crl.crl` beside
  `current.crl.b64`. That name is not a controlled alias, so once its nextUpdate
  has passed every strict trust-only apply over that directory fails
  (`ExpiredTwinBlocksTrustApply`; from an empty tree: `FreshPackageBlocksLater`).
- **Snapshots are not compared with what they copy.** The rollback manifest
  records the digest of what was stored. A corrupted snapshot copy passes the
  integrity check and cannot recover its file (`CopyingRecoversIff`,
  `UntouchedSnapshotVerifiesIff`; one file: `CorruptSnapshotVerifies`). A retry
  after a failed activation overwrites the only copy of the original
  (`RetryForgets`; one file: `RetryLosesOriginal`). A path with white space at
  either end fails the check of a faithful snapshot unless stripping leads to an
  equal file (`UntouchedSnapshotVerifiesIff`; one file: `PaddedPathFailsCheck`).
- **Receipts are normalised twice.** This is harmless for every plan the planner
  writes (`PlannedReceiptValidates`). Only a plan edited by hand can move a path
  whose receipt does not validate (`EditedPlanCanFail`).
- **Lifecycle updates are read-then-write.** Interleaved, a package can leave
  REVOKED for an earlier state (`StateCanRegressWhenInterleaved`), though its
  revoked mark stays (`RevokedMarkSurvivesInterleaving`). Its state is never
  lowered exactly when no UPDATE meets a row above both what its session read and
  what it was asked for (`NeverLowersIff`), and such a history ends as its
  requests run one after the other (`LosslessHistoryIsSerial`).
- **The limiter** allows 2L-1 grants in a sliding minute, not L, and for every
  limit L of at least one that is reached (`SlidingWindowBound`,
  `BoundIsReached`).

## Main results

The table below lists every member that states something about the source. The
results the others lead up to are:

- publication: `CallServesLatestRow`, `NeverExpired`, `UnusableServedIff`,
  `RevokedForever`, `LaterCallsServeLaterPairs` for atomic calls;
  `HistoryKeepsInv`, `RevisionsGaplessUnderInterleaving`,
  `RevokedForeverUnderInterleaving`, `RebuildKeepsOrderIff`, `HistoryIgnoresCache`
  under interleaving;
- the agent: `CyclesNeverRegress`, `HonestPullsNeverReplay`,
  `TornReadUnderInterleaving`, `PullReportsReplayIff`,
  `InterleavedPullReportsReplayIff`;
- packages: `LinksEndAtFirstGeneration`, `GenerationsAreGapless`,
  `InsertSucceedsIff`, `StateIsHighest`, `LosslessHistoryIsSerial`;
- files: `TrustApplySucceedsIff`, `TrustRollbackCompleteIff`,
  `EveryFailurePointRecoversIff`, `KeyUntouched`, `EveryStepConserves`,
  `PlannedReceiptValidates`;
- the rest: `EveryUriIsAccountedFor`, `LowRiskIff`, `SlidingWindowBound`,
  `CompliantNeverRefused`.

`VerifiedMeansSigned`, `VerdictIgnoresTransport`, `BuiltRowIsSound` and
`SignatureFixesManifest` are supporting facts: they unfold the model of signing.

## Model

| member | source | states |
|---|---|---|
| Numbering.AppendSequentialIff | gds/app/db.py:639-643 | numbering stays 1, 2, 3, ... per key exactly when the appended row carries MAX+1 |
| Numbering.Gapless | gds/app/db.py:886-888 | in such a table a key has number n exactly when 1 <= n <= its row count, and no two rows share key and number |
| Numbering.LatestIsGreatest | gds/app/db.py:702-710 | whatever the numbers, ORDER BY number DESC LIMIT 1 finds a row with the greatest number of its key, and none exactly when the key has no row |
| Common.LowerAlphabet | gds-agent/app/main.py:1232-1234 | lower-casing changes the 26 capital letters and nothing else |
| TrustTables.ActiveCertificateIsNewest | gds/app/db.py:579-612 | an activated, unrevoked package's certificate wins, newest first; else the newest active certificate of the application; None exactly when there is neither |
| TrustTables.DesiredMembers | gds/app/db.py:615-633 | a certificate is desired exactly when it stands for some active, authorised application |
| TrustTables.EnsureMembersExact | gds/app/db.py:670-697 | after ensuring, the newest list has exactly the resolved certificates of the authorised applications, without repetition; no other table and no other target's newest list changed |
| TrustTables.EnsureAgainIff | gds/app/db.py:670-697 | ensuring twice adds no second version if and only if the desired list has no duplicate |
| TrustTables.EnsureStableWhenOwned | gds/app/db.py:579-697 | when packages carry certificates of their own application, the list has one certificate per application and ensuring again changes nothing |
| TrustTables.ForeignPackageRepublishes | gds/app/db.py:685-697 | a concrete table where the second ensure publishes a second version |
| Artifacts.VerifiedMeansSigned | gds-agent/app/main.py:5658-5724 | supporting: an artifact that verifies is, field for field, a payload the anchor key signed |
| Artifacts.VerdictIgnoresTransport | gds-agent/app/main.py:304-340 | supporting: transport metadata never changes the verdict |
| Artifacts.BuiltRowIsSound | gds/app/artifact_signing.py:118-175 | supporting: a built artifact stored under the numbers it was built with agrees with its row: numbers, times, signer, digest, signature |
| Artifacts.PairVerifiesIff | gds-agent/app/main.py:5658-5724 | artifact of one row and signature of another verify together exactly when both rows hold the same signed payload and the anchor signed it |
| Publication.InsertIsSound | gds/app/db.py:863-911 | inserting under the lock: the database's MAX+1 equals the revision inside the signed JSON, the new row is the newest, other targets keep theirs |
| Publication.RegenerateKeepsCore | gds/app/main.py:2484-2567 | the second locked section keeps every table, cache and clock invariant, whatever was read before the lock |
| Publication.DeliverKeepsCore | gds/app/main.py:2569-2584 | the unlocked tail returns the stored JSON of the row, from cache or table, and caches exactly that under its row id and revision, keeping the cache in agreement with the table |
| Publication.ProceedCases | gds/app/main.py:2478-2584 | after its reads a call either changes no table and returns the newest row, or fails on Vault, or appends one fresh row and returns it |
| PublicationRuns.PairsIncrease | gds/app/main.py:2486-2541 | rows of one target have strictly increasing (version, revision) pairs |
| PublicationRuns.RevisionsAreGapless | gds/app/db.py:886-888 | revisions of a target are exactly 1..n and the signed JSON repeats them |
| PublicationRuns.CallServesLatestRow | gds/app/main.py:2469-2584 | a call returns the newest row exactly as stored, with the newest list version; the invariant, version order included, holds again; it never reports a missing list |
| PublicationRuns.CallServesNewest | gds/app/main.py:2469-2584 | the same from any state an interleaving can reach, without the version order |
| PublicationRuns.MissingIff | gds/app/main.py:2490-2498 | a call fails for want of an artifact exactly when none exists, it is not forced, and the clock reads less than the throttle interval: the throttle cannot suppress a first build |
| PublicationRuns.ServedSignerIsCurrent | gds/app/main.py:2453-2456 | once the clock is past the throttle interval, every returned artifact carries the running process's signer, even when throttled |
| PublicationRuns.LifetimeBound | gds/app/main.py:2437-2466 | once the clock is past the throttle interval, every returned artifact has at least min(threshold, ttl - min_interval) whole seconds to live |
| PublicationRuns.NeverExpired | gds/app/main.py:2437-2466 | then, with min_interval < ttl and a threshold of at least one second, nothing expired is returned |
| PublicationRuns.ExpiredServedIff | gds/app/main.py:2458-2498 | exactly when an expired artifact is returned: the newest was expired, and the throttle or a threshold <= 0 stopped the rebuild |
| PublicationRuns.UnusableServedIff | gds/app/main.py:2490-2498 | an artifact naming a certificate not in force is returned exactly when the call was throttled and the newest artifact named it |
| Scenarios.RevocationWithinThrottleIsServed | gds/app/main.py:2490-2498 | in any state: a certificate the newest artifact names, revoked within the throttle interval, is served by every unforced call in it |
| Scenarios.RevokedIsServedWithinThrottle | gds/app/main.py:2490-2498 | a run from an empty installation that does so |
| Scenarios.ZeroThresholdServesExpired | gds/app/main.py:2458-2466 | a run from an empty installation, with a zero threshold, that serves an expired artifact |
| PublicationRuns.RunKeepsInv | gds/app/main.py:2469-2584 | over every run of calls, table changes and restarts the invariant holds and published rows are never rewritten |
| PublicationRuns.RevokedForever | gds/app/db.py:1219-1234 | over every run a revoked certificate never comes back into force and no artifact inserted later names it, for any target |
| PublicationRuns.LaterCallsServeLaterPairs | gds/app/main.py:2469-2584 | of two calls for a target with any steps between, the later returns the same row or a strictly greater pair |
| PublicationRuns.CacheIsTransparent | gds/app/main.py:2569-2584 | two servers that differ only in the contents of their artifact caches, both in agreement with the table, answer a call alike and change tables and clocks alike |
| PublicationRuns.RunIgnoresCache | gds/app/main.py:2569-2584 | so over every run |
| Interleaving.HistoryKeepsInv | gds/app/main.py:2473-2584 | under every interleaving of the sections of any number of calls, other steps and restarts: numbering, row soundness, cache and clock agreement hold |
| Interleaving.RevisionsGaplessUnderInterleaving | gds/app/main.py:2480-2541 | from an empty installation, under every interleaving: revisions 1..n, and JSON version and revision equal the row's |
| Interleaving.SectionsComposeToCall | gds/app/main.py:2469-2584 | the sections of one call run back to back are the atomic call |
| Interleaving.RevokedForeverUnderInterleaving | gds/app/main.py:2473-2541 | once a certificate is revoked and no call in flight carries a list naming it, no artifact inserted later names it, under every interleaving |
| Interleaving.StaleReadPublishesRevoked | gds/app/main.py:2473-2541 | a call past its read, forced or not, that takes its locks after a revocation adds a row exactly when it will rebuild, and the rows added omit the certificate exactly when it will not rebuild or its list does not name it |
| Interleaving.UnreadCallPublishesRevoked | gds/app/main.py:2473-2541 | the same for a call between its ensure and its read, with the newest list of its target, for a certificate of an application that exists |
| Interleaving.HistoryIgnoresCache | gds/app/main.py:2473-2584 | the same under every interleaving, for caches and for cache entries carried by calls in flight |
| Interleaving.FinishIgnoresCache | gds/app/main.py:2569-2584 | what a call in flight returns does not depend on either |
| Interleaving.RestartForgetsReads | gds/app/main.py:2473-2541 | after a restart no call in flight is left, so whatever was in flight, no later artifact names a certificate revoked before it |
| Scenarios.StaleRebuildNamesRevoked | gds/app/main.py:2473-2541 | a history from an empty installation: read, revoke elsewhere, rebuild, and the new row names the revoked certificate |
| Interleaving.RebuildKeepsOrderIff | gds/app/main.py:2473-2541 | a rebuild keeps the version order exactly when the list it read is not older than the newest artifact found under the lock |
| Interleaving.RebuildFromNewestListKeepsOrder | gds/app/main.py:2473-2541 | a rebuild whose list is still the newest never disturbs the order |
| Interleaving.OverlappingRebuildsInvertVersions | gds/app/main.py:2473-2486 | for any target, a history of two forced rebuilds that stores version 1 under revision 2 after version 2 under revision 1 |
| Replay.ServedBehindIff | gds/app/main.py:2490-2498 | after any interleaving, a call serves a pair below a stored row's exactly when it is throttled and the newest row has an older version than that row |
| Replay.PullReportsReplayIff | gds-agent/app/main.py:6184-6196 | an agent holding a row of the server reports a replay exactly when it would otherwise accept what it got, compares with that row, the artifact request was not renewed and the newest row has an older version |
| Replay.InterleavedPullReportsReplayIff | gds-agent/app/main.py:6184-6196 | the same when the sections of the request interleave with any other calls, steps and restarts, and with any signature document: the throttle and the newest row are those found at the lock that settles the row |
| Replay.RowReportsReplayIff | gds-agent/app/main.py:6184-6196 | an agent holding one row and sent another reports a replay exactly when it would otherwise accept it, compares, and the row sent is behind |
| Replay.FinishReturnsSettledRow | gds/app/main.py:2569-2584 | a request returns the JSON stored in the row settled at its lock, however long it takes to finish |
| Replay.FallbackReportsReplayIff | gds/app/main.py:2186-2201 | the Vault-sealed fallback on the newest row gives an alarm exactly when that row has an older version, the other checks passing |
| Replay.TornReadUnderInterleaving | gds-agent/app/main.py:5658-5724 | artifact and signature fetched in two worlds with any interleaving between verify together exactly when they come from one row signed by the anchor |
| Scenarios.HonestPullLooksLikeReplay | gds-agent/app/main.py:6184-6196 | after two overlapping rebuilds an honest pull within the throttle interval is rejected as a replay |
| Scenarios.RebuildDuringPullLooksLikeReplay | gds-agent/app/main.py:6184-6196 | nothing is inverted when a pull begins; a rebuild from an older list completes during it, and the honest pull is rejected as a replay |
| Contents.StandsForIffChosen | gds/app/db.py:552-612 | on columns: a certificate stands for an application exactly when the application is active and trusted by the target's consumers, and the certificate is that of its newest activated, unmarked package in force, or, with no such package, its newest own certificate in force |
| Contents.EnsuredListIsChosen | gds/app/db.py:670-697 | after ensuring, the newest list has exactly those certificates, each once |
| Contents.EnsurePublishesNothingIff | gds/app/db.py:685-697 | ensuring publishes nothing exactly when the newest list has the chosen certificates and none of them is chosen for two applications |
| Contents.EntriesInOrder | gds/app/db.py:714-732 | with the foreign keys in force the read has one entry per member, each carrying the URI, name, zone, role, component type, fingerprint and PEM of that certificate and its application |
| Contents.RebuiltEntriesDescribeChosen | gds/app/db.py:714-732 | the artifact a rebuilding call stores and returns has such an entry for every chosen certificate and no other entry |
| Contents.CallRebuildsIff | gds/app/main.py:2446-2498 | a call appends a row exactly when Vault is open, it is forced or the interval has passed, and it is forced or finds no artifact, another list version, another signer, or less than the configured percentage of the lifetime left |
| Contents.RebuiltRowIsPublishedAs | gds/app/main.py:2499-2541 | that row holds Vault's material, the target, the lifetime and the signer, is signed field for field, and its reason names the first cause that applies |
| Contents.StaysInForceIff | gds/app/db.py:1219-1256 | a certificate stays in force through a step exactly unless the step revokes it or is an expiry scan after its not_after; once out of force it never comes back |
| Contents.RunKeepsIdentities | gds/app/db.py:370-505 | over every run application URIs and fingerprints stay unique, an application keeps its URI and component type, a certificate everything but its status |
| Contents.ActiveIff | gds/app/db.py:393-457 | an application is active after its heartbeat, or as its last registration says |
| GdsServer.Gds.DesiredTrustlistCertificateIds | gds/app/db.py:615-633 | the loop computes the desired list |
| GdsServer.Gds.BuildTrustList | gds/app/db.py:636-667 | inserts the next version and its members one by one, skipping conflicts; equals the function on tables |
| GdsServer.Gds.EnsureTrustListCurrent | gds/app/db.py:670-697 | equals the function on tables |
| GdsServer.Gds.InsertTrustArtifact | gds/app/db.py:863-911 | appends one row numbered by the database |
| GdsServer.Gds.GetOrRegenerateSignedArtifact | gds/app/main.py:2469-2584 | new tables, cache, clocks and result equal the atomic step the run theorems and the theorems on columns (module Contents) are about |
| GdsServer.Gds.RevokePackagesOf | gds/app/main.py:2840-2856 | every package of the certificate ends REVOKED and marked, or EXPIRED if it was; every other package row is the one it was |
| GdsServer.Gds.RevokeCertificate | gds/app/main.py:2838-2859 | mark, move packages, publish, force a new artifact, as one function of the old state; certificate rows and package rows of other certificates are the ones they were |
| GdsServer.RevokeEffect | gds/app/main.py:2838-2859 | an unknown certificate changes nothing; otherwise only its own row changes among certificates (revoked, first time kept) and only its packages among packages |
| GdsServer.RevokedPackagesNeverActivated | gds/app/main.py:2840-2856 | afterwards each such package is REVOKED and marked, or was EXPIRED |
| GdsServer.RevokePublishesAtOnce | gds/app/main.py:2838-2859 | the certificate is out of force, its list has a newer version, and unless Vault refused the newest artifact no longer names it |
| AgentSync.SyncAgent.RunSyncCycleSigned | gds-agent/app/main.py:6135-6395 | one pass over the targets; every cached file afterwards is what the good deliveries for its target left in turn, the PKI bundle is that of the first delivery taken, and an unreadable cache file ends the cycle there |
| AgentSync.AcceptedIff | gds-agent/app/main.py:6143-6200 | a delivery is accepted exactly when the cached file is not garbage, the documents are authentic for the target and anchor, well formed and unexpired, and not older than a cached list of the anchor |
| AgentSync.ChangedFilesAreUnexpired | gds-agent/app/main.py:6179-6181 | a cached file that differs after a cycle is the artifact of a good delivery for that target, not expired by that delivery's clock |
| AgentSync.ExpiredDeliveriesChangeNothing | gds-agent/app/main.py:6179-6181 | deliveries that have all expired leave every file and the PKI bundle as they were |
| AgentSync.RefusalNamesAFault | gds-agent/app/main.py:6143-6200 | a refusal names a fault that is there: fetch, signature checks, payload, expiry or replay |
| AgentSync.CodeNamesACheck | gds-agent/app/main.py:5658-5724 | each failure code of the signature checks names a check that fails |
| AgentSync.EndpointsWhenSealed | gds/app/main.py:2178-2255 | with Vault sealed and a rebuild due, the artifact endpoint hands out the newest artifact exactly while it has a second to live, the signature endpoint nothing |
| AgentSync.EndpointNeverExpired | gds/app/main.py:2178-2201 | nothing the artifact endpoint hands out has expired, Vault sealed or not |
| AgentSync.ProcessTargetEffect | gds-agent/app/main.py:6150-6196 | a rejected delivery changes nothing; an accepted one was signed by the anchor and is no smaller pair |
| AgentSync.CyclesNeverRegress | gds-agent/app/main.py:6184-6196 | over any cycles and any network, a target's cached (version, artifact_revision) never decreases |
| AgentSync.RejectedLeavesCache | gds-agent/app/main.py:6250-6309 | a target with only rejected deliveries keeps its cached list |
| AgentSync.PayloadIdentifiesRow | gds/app/main.py:2263-2277 | two rows with the same signed payload are the same row |
| AgentSync.TornReadIff | gds-agent/app/main.py:5441-5453 | from any state an interleaving can reach, with any server steps between the two requests, verification succeeds exactly when both came from one row signed by the anchor, and then the digest is that row's |
| AgentSync.HonestPull | gds-agent/app/main.py:6184-6196 | an honest pull never reports a replay and leaves the agent holding only rows of the server |
| AgentSync.HonestPullsNeverReplay | gds-agent/app/main.py:6184-6196 | the same after any history of server steps and pulls from an empty start |
| Lifecycle.StateIsHighest | gds/app/db.py:1369-1425 | after any requests the state is the highest-ranked of the initial and all supported requested ones |
| Lifecycle.UpdateTakesTheLater | gds/app/db.py:1369-1425 | of the ten named states in their order, a request in any case leaves the later of the present and the requested one; reaching REVOKED marks the row; any other text is refused |
| Lifecycle.UpperAlphabet | gds/app/db.py:1390-1399 | upper-casing changes the 26 small letters and nothing else |
| Lifecycle.OrderDoesNotMatter | gds/app/db.py:1369-1425 | order and repetition of requests do not matter |
| Lifecycle.PostedEventsAreRequests | gds/app/main.py:2105-2128 | a history of posted events acts as its state-changing requests; events of another type and unsupported states change nothing |
| Lifecycle.RevokedMarkIff | gds/app/db.py:1408-1417 | the revoked mark is permanent and set exactly when some step left the package in REVOKED |
| Lifecycle.ExpiredBlocksRevocation | gds/app/db.py:1401-1417 | nothing changes a package in EXPIRED, so a later REVOKED request does not mark it |
| Lifecycle.RevokedMarkSurvivesInterleaving | gds/app/db.py:1395-1417 | with SELECT and UPDATE interleaved the mark still never goes away |
| Lifecycle.SerialHistoryIsRun | gds/app/db.py:1395-1417 | SELECTs and UPDATEs run back to back, by whatever sessions, are the atomic updates |
| Lifecycle.StateCanRegressWhenInterleaved | gds/app/db.py:1395-1417 | a concrete history in which REVOKED is overwritten by VERIFIED |
| Lifecycle.NeverLowersIff | gds/app/db.py:1395-1417 | a history never lowers the state exactly when no UPDATE meets a row above both what its session read and what it was asked for |
| Lifecycle.LosslessHistoryIsSerial | gds/app/db.py:1395-1417 | such a history, however interleaved, ends as its executed requests run one after the other |
| Lineage.PackageTable.InsertCertificatePackage | gds/app/db.py:1114-1170 | stores the row exactly when neither uniqueness rule (gds/app/db.py:141, 157) is violated |
| Lineage.PackageTable.IssueCertificatePackage | gds/app/lifecycle.py:167-240 | one row is added that follows the newest of its line (or starts it) and carries the order, with a manifest and signature covering it, or nothing changes because the id or the generation is taken |
| Lineage.InsertContinuesLine | gds/app/lifecycle.py:167-170 | an insert that the uniqueness rules let through takes MAX+1, links to MAX and keeps the registry well formed |
| Lineage.HistoryKeepsInv | gds/app/lifecycle.py:167-240 | under every interleaving of issuers and lifecycle updates the registry stays well formed |
| Lineage.GenerationsAreGapless | gds/app/db.py:157 | from an empty table the generations of each (application, profile) are exactly 1..n, each once |
| Lineage.LinksEndAtFirstGeneration | gds/app/lifecycle.py:169-178 | from any package the links go down one generation at a time in its line and end at generation 1 after generation-1 links |
| Lineage.InsertSucceedsIff | gds/app/lifecycle.py:167-240 | among concurrent issuers of a line exactly those succeed whose package id is new and who read the package that is still the newest; the others add nothing |
| Lineage.IssueIsReadThenInsert | gds/app/lifecycle.py:167-240 | an issuer whose read and insert run back to back issues as the atomic operation does |
| Lineage.SignatureFixesManifest | gds/app/package_signing.py:25-33 | supporting: a signature fits one manifest: no field can change, not even the hash it leaves out |
| CrlFiles.Disk.SnapshotCrlDirs | gds-agent/app/main.py:1505-1518 | the snapshot holds exactly the readable CRL files |
| CrlFiles.Disk.RemoveStaleAliases | gds-agent/app/main.py:1482-1550 | removes exactly the files of the directories named by one of the three stems with .crl or .crl.b64, in any case, that can be unlinked, and reports them |
| CrlFiles.Disk.RestoreSnapshot | gds-agent/app/main.py:1521-1529 | rewrites the snapshotted files and touches nothing else |
| CrlFiles.Disk.ValidateCrlDirs | gds-agent/app/main.py:1566-1607 | the problems are exactly the scanned files whose CRL does not parse, has no nextUpdate or, in strict mode, one that has come; an unreadable file raises |
| CrlFiles.ProblemsAre | gds-agent/app/main.py:1553-1607 | the same of the problem set as a function of the tree |
| CrlApply.Stage.WriteTargetStageCrls | gds-agent/app/main.py:1647-1727 | new tree and outcome equal the trust-only function of the old tree; after a success every scanned file is readable, parses, has nextUpdate and, in strict mode, is not due |
| CrlApply.Stage.WritePackageStageCrls | gds-agent/app/main.py:1816-1869 | new tree and outcome equal the package function of the old tree; after a success every scanned file is sound in the same sense |
| CrlApply.WriteItemsEffect | gds-agent/app/main.py:1681-1706 | the writing loop puts exactly the delivered files in place, the compatibility directory only where writable |
| CrlApply.TrustApplySucceedsIff | gds-agent/app/main.py:1647-1727 | the trust-only stage passes exactly when the incoming CRLs and every CRL file it neither deletes nor overwrites are readable and fresh, whichever aliases cannot be deleted |
| CrlApply.TrustPassesIff | gds-agent/app/main.py:1584-1598 | the success condition on parsed CRLs and names, for both values of the strict setting |
| CrlApply.TrustLeavesSound | gds-agent/app/main.py:1681-1722 | after a success all scanned files are sound and every delivered file is in each directory that takes it |
| CrlApply.LenientAcceptsExpired | gds-agent/app/main.py:1592-1598 | an expired CRL is delivered when the check is lenient and refused when it is strict |
| CrlApply.MissingNextUpdateFails | gds-agent/app/main.py:1584-1589 | lenient or strict, a foreign file without nextUpdate fails the stage, whatever comes in |
| CrlApply.WriteFailsIff | gds-agent/app/main.py:1681-1702 | the stage fails to write exactly when an intermediate CRL meets a mandatory directory that is the read-only compatibility directory |
| CrlApply.StaleAliasesNeverBlock | gds-agent/app/main.py:1673-1681 | while every alias can be deleted, the files that matter are those with a non-controlled name |
| CrlApply.StuckRootBlocks | gds-agent/app/main.py:1545-1549 | a tree whose one stale alias cannot be deleted, on which a delivery without that alias fails |
| CrlApply.TrustApplyResult | gds-agent/app/main.py:1672-1706 | after success the controlled names present are those just written and those that could not be deleted, and nothing else changed |
| CrlApply.TrustApplyRollsBack | gds-agent/app/main.py:1708-1722 | on validation failure readable CRL files have their bytes again, other files are untouched, leftovers are controlled `.crl` names absent before |
| CrlApply.TrustRollbackCompleteIff | gds-agent/app/main.py:1521-1529 | the tree is as before exactly when every written alias existed and every written or deleted alias was readable |
| CrlApply.StaleDeliveryLeavesAliases | gds-agent/app/main.py:1708-1722 | a delivery that is not fresh, into empty directories, fails validation and leaves all its aliases behind |
| CrlApply.DecodeFailureKeepsDeletions | gds-agent/app/main.py:1672-1687 | the stage fails to decode exactly when an incoming text is not base64, and then the controlled aliases that can be deleted are gone and a root CRL that did decode has been written |
| CrlApply.DecodeFailureDeletesAlias | gds-agent/app/main.py:1672-1687 | a tree of one alias that such a failure empties |
| CrlApply.DecodeFailureHarmlessIff | gds-agent/app/main.py:1672-1687 | such a failure leaves the tree as it was exactly when every alias it deleted is rewritten alike and nothing new is written |
| CrlApply.TrustReadFailsIff | gds-agent/app/main.py:1553-1563 | the stage stops on an unreadable file exactly when one survives its clean-up and writes, and restores nothing |
| CrlApply.UnreadableFileLosesAlias | gds-agent/app/main.py:1553-1563 | a tree of a root alias and an unreadable foreign file, after which the alias is gone |
| CrlApply.PackageApplySucceedsIff | gds-agent/app/main.py:1816-1869 | for any configured file name: passes exactly when the scanned written files and every CRL file neither deleted nor overwritten are fresh |
| CrlApply.PackagePassesIff | gds-agent/app/main.py:1816-1869 | the package stage's success condition on parsed CRLs and names |
| CrlApply.PackageLeavesSound | gds-agent/app/main.py:1840-1864 | after a success all scanned files are sound and the package's files are in place |
| CrlApply.WithSuffixIs | gds-agent/app/main.py:1842-1842 | only the part after the last dot is replaced, and a name that begins or ends with its only dot keeps it |
| CrlApply.DefaultPackageSucceedsIff | gds-agent/app/main.py:1820-1869 | for `current.crl.b64`: exactly when the decoded CRL is fresh and so is every CRL file neither deleted nor overwritten; an earlier `current.crl.crl` is overwritten |
| CrlApply.PackageApplyRollsBack | gds-agent/app/main.py:1826-1864 | the package rollback, with the three literal names as the only leftovers |
| CrlApply.PackageRollbackCompleteIff | gds-agent/app/main.py:1848-1864 | for any configured file name: the tree is as before exactly when every written file is recovered and no deleted alias was unreadable |
| CrlApply.StalePackageLeavesFiles | gds-agent/app/main.py:1848-1864 | a package CRL that is not fresh, staged into empty directories, leaves its three files behind |
| CrlApply.PackageReadFailsIff | gds-agent/app/main.py:1553-1563 | the package stage stops on an unreadable file exactly when one survives its clean-up and writes, and restores nothing |
| CrlApply.ExpiredTwinBlocksTrustApply | gds-agent/app/main.py:1842-1842 | after a successful package stage, once the CRL's nextUpdate passes, every strict trust-only stage over that directory fails |
| CrlApply.FreshPackageBlocksLater | gds-agent/app/main.py:1842-1842 | from an empty tree: a package stage that succeeds, and after its CRL's nextUpdate a trust-only stage that fails |
| Paths.CandidateIsPrivate | gds-agent/app/main.py:2704-2721 | every place a runtime key is looked for is a private-key path |
| Paths.PrivateIff | gds-agent/app/main.py:1231-1239 | a path is key material exactly when, in any case and with either slash, a component is `private` or `keys` or the file name contains `.key` or `private` |
| Paths.PreservedIff | gds-agent/app/main.py:2594-2610 | activation leaves alone exactly key material and six named files |
| Paths.MayLeaveIff | gds-agent/app/main.py:3823-3836 | quarantine may take exactly the paths in four named directories that are not key material and not under own/, in normal form and any case |
| Paths.NormalizeIs | gds-agent/app/main.py:3776-3777 | the normal form has slashes for backslashes, no white space at the ends, then no slash in front |
| Paths.EligibleIsSafe | gds-agent/app/main.py:3823-3836 | a quarantine-eligible path is no private-key path and not under own/, in normal form or not |
| Paths.EligibleNormalIsStable | gds-agent/app/main.py:3823-3836 | normalising an eligible path a second time changes nothing |
| Activation.Agent.SnapshotRuntime | gds-agent/app/main.py:4485-4510 | copies the non-private runtime files, succeeds exactly when every copy returns, manifest and states on the way as specified |
| Activation.Agent.CopyStaged | gds-agent/app/main.py:4554-4580 | copies staged non-preserved files with checks; on failure names a file that could not be copied well |
| Activation.Agent.ActivatePackageRuntime | gds-agent/app/main.py:4513-4614 | an unknown target, a missing key or a certificate that does not fit the first key found is refused before anything is touched; every state on the way is a reachable one; success exactly when all copies are good, and then the staged files match, all others are as before and the report is right; a failure names what failed |
| Activation.EveryFailurePointRecoversIff | gds-agent/app/main.py:4485-4571 | with faithful snapshot copies, every failure point gives back all original bytes exactly when the rollback directory held nothing stale |
| Activation.CopyingRecoversIff | gds-agent/app/main.py:4500-4501 | once the snapshot is complete a file is recoverable exactly when its snapshot copy is right, whatever happens to the runtime copies |
| Activation.NothingElseChanges | gds-agent/app/main.py:4554-4571 | no reachable state has lost a file, gained an unstaged one or changed a preserved one |
| Activation.KeyUntouched | gds-agent/app/main.py:2704-2727 | the same private-key candidate with the same bytes is found in every reachable state |
| Activation.SecondActivationIsNoop | gds-agent/app/main.py:4532-4552 | after success an immediate second activation decides already_activated with the same key digest |
| Activation.RetryForgets | gds-agent/app/main.py:4485-4510 | after a retry's snapshot an original file is recoverable exactly when the failed attempt had not changed it |
| Activation.RetryLosesOriginal | gds-agent/app/main.py:4485-4510 | one runtime file: a copy that stores wrong bytes fails its check, the retry succeeds, and the original cannot be recovered |
| Activation.RollbackManifestIntegrity | gds-agent/app/main.py:4801-4853 | ok exactly when every entry verifies; entries are checked, missing or invalid, each counted once; missing and mismatched paths are exactly the right ones |
| Activation.UntouchedSnapshotVerifiesIff | gds-agent/app/main.py:4801-4853 | a completed, untouched snapshot passes exactly when stripping changes no copied path to a different file |
| Activation.CorruptSnapshotVerifies | gds-agent/app/main.py:4500-4507 | one runtime file whose snapshot copy is wrong: its manifest entry verifies and the file cannot be recovered |
| Activation.PaddedPathFailsCheck | gds-agent/app/main.py:4801-4853 | one runtime file whose path ends in a space: it can be recovered, and its manifest entry does not verify |
| Activation.TrimmedSnapshotVerifies | gds-agent/app/main.py:4801-4853 | a completed, untouched snapshot passes when no copied path begins or ends with white space |
| Quarantine.Runtime.MoveOne | gds-agent/app/main.py:4092-4099 | copy, check, unlink: the file leaves only after a faithful copy |
| Quarantine.Runtime.QuarantineAll | gds-agent/app/main.py:4082-4111 | every state on the way conserves; it finishes exactly when every selected file is copied faithfully; then exactly the reported files have left, with their digests |
| Quarantine.EveryStepConserves | gds-agent/app/main.py:4082-4111 | at every step each runtime file is in the runtime or, if eligible, at its quarantine path with its bytes; nothing appears in the runtime |
| Quarantine.LeavingIsSafe | gds-agent/app/main.py:3823-3836 | what leaves was in the runtime, eligible, not key material and not under own/ |
| Quarantine.LeavingIs | gds-agent/app/main.py:4082-4090 | a file leaves exactly when it is in the runtime, may leave, and a plan entry normalises to it |
| Quarantine.PlanQuarantine | gds-agent/app/main.py:3928-3972 | active entries are exactly the reported paths found in the runtime with the same fingerprint up to case; candidates those that may leave, the others preserved; the decision follows |
| Quarantine.ValidateReceipt | gds-agent/app/main.py:4212-4254 | validated exactly when no entry naming a path is still in the runtime, missing from quarantine or of another digest; remaining, missing and mismatched paths are exactly the right ones |
| Quarantine.PlannedReceiptValidates | gds-agent/app/main.py:3954-3957 | with nothing in between, the receipt of a nonempty move under a plan of eligible candidates is validated, whatever they are |
| Quarantine.FreshReceiptValidatesIff | gds-agent/app/main.py:4222-4228 | with nothing in between, a receipt validates exactly when no moved path normalises a second time to a runtime path that was not moved |
| Quarantine.NormalFormValidates | gds-agent/app/main.py:4222-4228 | whoever wrote the plan, a receipt of paths in normal form always validates |
| Quarantine.EditedPlanCanFail | gds-agent/app/main.py:3776-3777 | a plan the planner would not write, whose faithful move does not validate |
| TrustDiff.BuildCertIndex | gds-agent/app/main.py:225-247 | the loop computes the index |
| TrustDiff.IndexHoldsLast | gds-agent/app/main.py:225-247 | the index holds exactly the URIs given, each with its last entry |
| TrustDiff.MalformedIffListed | gds-agent/app/main.py:239-243 | no parse error is reported exactly when no entry with a URI has a malformed PEM |
| TrustDiff.BuildDiffReport | gds-agent/app/main.py:5037-5159 | added, removed and changed are exactly what the last entries of the two lists and the owners of fingerprints say; each reason is there exactly when its cause is; the risk follows from the listings |
| TrustDiff.ReportCompares | gds-agent/app/main.py:5046-5113 | the listings on the entries of the two lists |
| TrustDiff.OwnerIff | gds-agent/app/main.py:5061-5062 | of the URIs whose last entry has a fingerprint, the one that first appears last owns it |
| TrustDiff.EveryUriIsAccountedFor | gds-agent/app/main.py:5059-5079 | every URI in one list only is in added, removed or an application_uri_changed entry |
| TrustDiff.LowRiskIff | gds-agent/app/main.py:5125-5142 | LOW exactly when there is no critical reason and no CA change, the URIs are the same, fingerprints agree up to case, names agree, expiry agrees or is missing on one side, and no fingerprint changed its URI |
| TrustDiff.SameListHasNoChange | gds-agent/app/main.py:5046-5113 | a list compared with an equal one has no certificate change and is LOW unless the CA chain or a critical reason says otherwise |
| TrustDiff.MovedFingerprintIsReal | gds-agent/app/main.py:5063-5076 | an application_uri_changed entry names a URI that carried the fingerprint before and a different one that carries it now |
| RateLimiter.Limiter.AllowRequest | gds/app/opcua_boundary_adapter.py:409-410 | one step on the session counters |
| RateLimiter.Limiter.AllowEnrollment | gds/app/opcua_boundary_adapter.py:412-414 | one step on the enrolment counters, keyed by application, else session |
| RateLimiter.Limiter.Allow | gds/app/opcua_boundary_adapter.py:416-423 | the counter update and the verdict |
| RateLimiter.SlidingWindowBound | gds/app/opcua_boundary_adapter.py:416-423 | at most 2 * max(1, limit) - 1 grants of a key in any half-open sixty seconds |
| RateLimiter.BoundIsReached | gds/app/opcua_boundary_adapter.py:416-423 | for every limit >= 1 a history of 2 * limit requests in which one key gets 2 * limit - 1 grants in [59, 119) |
| RateLimiter.RefusalMeansExcess | gds/app/opcua_boundary_adapter.py:416-423 | a refusal proves more than limit requests in some sixty-second interval that contains it |
| RateLimiter.CompliantNeverRefused | gds/app/opcua_boundary_adapter.py:416-423 | a key within the limit in every sixty seconds is never refused |
| RateLimiter.KeysAreIndependent | gds/app/opcua_boundary_adapter.py:416-423 | other keys never influence a key's counter |

## Left out

- HTTP routes, mTLS and token policy, Vault calls, OPC UA plumbing, telemetry, logging, receipts and reports as files.
- X.509, PEM, Ed25519, SHA-256, base64 and JSON: a certificate, CRL or text carries what the parser makes of it; the JSON round trip is the identity.
- PostgreSQL: one statement group is one step, except where a property is about interleaving; several processes sharing one database are not modelled, so there is one regeneration lock.
- `ORDER BY application_uri`: members and entries are in application-row order, so list contents are modelled and their order is not.
- The float product behind the TTL threshold: a setting says whether it falls just short of an integer; which values make it so is not computed.
- Python's `int()` coercions and type checks of single JSON fields: a field that does not coerce counts as missing. For a cached list whose version does not coerce the source rejects the delivery and the model compares nothing.
- `str.lower`, `str.upper` and `str.strip` beyond ASCII.
- Path resolution: paths are canonical and relative; symlinks, `..` and directories in place of files are not modelled.
- Failing restores in the CRL stages, and failing writes other than to the compatibility directory. Any set of aliases may refuse to be deleted, independently of where writes succeed.
- The non-CRL files that the two stage writers also write.
- The write probe before activation and quarantine; the certificate-to-key test is a predicate on the key file's bytes.
- Approval gates, maintenance windows, and the merge plan, which activation does not consult.
- The text of error messages and reasons in the diff, and the sorted order of its listings; expiry dates are compared as times.
- The cancellation of certificates deleted with their application (`ON DELETE CASCADE`): rows are never removed in the model.
