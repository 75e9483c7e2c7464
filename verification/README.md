# Paste server verification

A Dafny model of a paste-sharing server: its SQLite-backed store of browser sessions, API tokens,
OAuth and device logins and pastes; the upload directory that the paste table describes; and the
filenames that carry expiry times. Every property below is proved for all inputs, all states or all
runs, never for a bound.

How it is built:

* SQL statements are functions on tables (`map` from row id to row, with an AUTOINCREMENT counter);
  a transaction is one step. The objects that the program updates in place are classes
  (`AuthStore.Store`, `PasteStore.Store`, `Server.UploadServer`); each method is proved equal to the
  step function of its operation, and the theorems are about runs of those steps.
* Where a query returns "the" row of a unique column, the model picks any matching row, and
  uniqueness is proved as an invariant.
* Clock readings, generated secrets and codes, directory listings and file contents' digests are
  parameters. Hashing is injective (`Base.Digest`); generated secrets being new is a stated
  hypothesis where a proof needs it. Integers are unbounded, and every 64-bit or 128-bit width check
  of the program is written out.
* The sidecar protocol is modelled file operation by file operation, with any number of processes
  interleaving; everything else takes one operation at a time.
* The step functions are not taken on trust: `AuthAnswers`, `DeviceLogin`, `UploadAnswers`, `PasteRuns` and
  `Reconciliation` say for each operation which answer it gives when, and what becomes of every row and
  file, in terms of the state before it.

The files, from the bottom up: `Base`, `Text`; `Credentials`, `AuthTables`, `Invariants`, `CredentialBound`,
`AuthAnswers`, `OAuthLogin`, `DeviceLogin`, `PurgeTransparency`, `IdleTimeout`, `Revocations`, `Attribution`,
`AuthStore`, `AuthRuntime` (authentication);
`Expiry`, `Siblings`, `Extensions` (filenames); `Pastes`, `Reconciliation`, `PasteRuns`, `PasteStore`,
`Uploads`, `UploadAnswers`, `Server`, `SidecarLock`, `Restarts` (pastes and files).

## Where the program does not keep a property everywhere

Each of these is proved with the exact condition under which the property holds, for all inputs, and
most with a concrete witness.

* The purge can be observed in two ways. A revocation counts the dead rows it finds: its answer
  shrinks by exactly the expired rows of its selection (`RevocationCountSeesPurge`). Provisioning a
  token answers differently after a purge exactly when a dead row of that token was there
  (`ProvisioningSeesPurge`). Over whole runs, and apart from revocation counts, the answers with and
  without the purges are the same exactly when no provisioning, unless refused outright, meets a token
  whose dead row a purge has taken (`PurgeIsUnobservable`). If one does, later ids differ too.
* The expiry of an upload is converted for the metadata only after the file is stored, outside the
  rollback: an expiry that does not fit leaves a file without a row, unless nothing was stored or the
  path has a row already (`OversizedExpiryIsUntracked`, `OversizedUploadIsUntracked`).
* A refused or folded upload leaves the directory as it found it, except for such an expiry and for a
  file that has the name of the upload's password sidecar: an unprotected upload that gets as far as
  creating files takes that file with it (`RefusedUploadRestores`, `RefusedUploadTakesCompanion`).
* An upload folded into a record that claims the upload's own path removes the file that it then
  answers with (`FoldedRecordIsServed`, `StaleRecordOfSamePathSwallowsUpload`, `NormalisedUrlIsSwallowed`).
* The rollback of a protected upload whose content was already removed by someone else goes on to
  remove a sidecar that it does not hold: from then on content can be left without its password file
  (`RollbackKeepsGuaranteeIff`, `RollbackUnguardsContent`). If by then another upload has stored its
  content there, the rollback removes that paste (`RollbackTakesAnotherIff`, `RollbackDestroysAnotherPaste`).
* Deleting a paste, or sweeping it, also removes a file that has the name of its password sidecar, and
  leaves that file's row behind (`DeletionTakesNeighbourIff`, `DeletionTakesNeighbour`,
  `SweepLeavesNothingExpired`, `SweepTakesNeighbour`).
* Looking up the file behind a name takes the alphabetically last timestamp: an expired shorter
  suffix can hide a live longer one (`LiveSiblingFoundIff`, `ShorterSuffixHidesLiveSibling`). The password
  file of an expiring paste matches as well and sorts after it, so a protected expiring paste is never found
  by its name (`SidecarsHideLiveSiblings`, `ExpiringPastesAreNotFound`).
* A file whose expiry does not fit in 64 bits of milliseconds is neither swept nor served by its
  suffix, whatever its metadata says (`ReadersAgreeWithinASecond`).
* The sweep takes a visible paste without an expiry exactly when its name ends in a number of
  milliseconds that has passed (`VisiblePasteSweptIff`, `NumberedNameIsSwept`).
* A name stored without an expiry that ends like one is read back by the scan as a shorter name with
  an expiry; exactly such accepted uploads break the agreement of directory and table
  (`ReadBackIff`, `AcceptedUploadAgreesIff`, `MisreadUploadIsRenamed`).
* A restart after a partial scan drops the row of an expired file that is still there and was not read;
  it leaves no file without a row exactly when there is no such file (`PartialRestartTracksIff`).
* A dynamic token is left as it was by the startup rotation exactly when its secret is not configured;
  otherwise it becomes a managed token (`Initialize`, `ConfiguredDynamicTokenIsTaken`).
* Startup fails on a configured token that has a row of another principal, even a revoked or expired one,
  just as on one that is blank or given to two principals (`Initialize`).

## Model

| member | source | states |
|---|---|---|
| Base.ExpiryFrom | src/store.rs:1894-1907 | a lifetime is accepted exactly when positive and when the sum fits in 64 bits; the result is later than now by the lifetime |
| Credentials.NewestAreNewest | src/store.rs:1456-1481 | the retention query selects the right number of rows, each newer by (created_at, id) than every row it leaves out |
| Invariants.StepKeepsWellFormed | src/store.rs:485-1033 | no operation breaks the unique secrets, states, device and user codes, or stores a row from the future |
| Invariants.RunKeepsWellFormed | src/store.rs:485-1033 | the same for every run with a clock that never goes back |
| AuthAnswers.RevocationIsExact | src/store.rs:485-706 | each of the four revocations stamps the unrevoked rows that it covers, by secret, id, principal or reserved label, leaves every other row of both tables as it was, and answers their number |
| AuthAnswers.AuthenticationIsExact | src/store.rs:1535-1591 | for every row: only the secret's own is touched, revoked if expired, rolled if an hour old; which of nobody, an error, and who is answered when |
| AuthAnswers.AnswerNamesItsRow | src/store.rs:1586-1590 | whoever is let in is answered with the id and the principal of an unrevoked, unexpired row of the secret, and with the expiry then stored |
| AuthAnswers.CreationIsExact | src/store.rs:1484-1533 | a credential is created exactly when the lifetime fits, the principal exists and the secret is new; reply and new row carry what was asked for; a refusal changes nothing |
| AuthAnswers.ProvisioningIsExact | src/store.rs:601-657 | a token is provisioned exactly when it is not blank, the lifetime fits and its row, if any, is the principal's; that one row is written, its id and creation time kept |
| AuthAnswers.PurgeIsExact | src/store.rs:709-735 | exactly the dead rows of the four tables go, and the count is what the tables lost |
| AuthAnswers.OAuthStoringIsExact | src/store.rs:741-786 | a login transaction is stored exactly when acceptable, below the limit and its state unused; it expires a lifetime from now; expired ones are swept, also when the limit refuses |
| AuthAnswers.OAuthCallbackIsExact | src/store.rs:789-810 | a callback takes the unexpired transaction of its state and no other, and otherwise gets nothing |
| AuthAnswers.StartIsExact | src/store.rs:813-887 | a device login starts exactly when acceptable, below the limit and some draw is free; its codes are the first free draw's, it expires a lifetime from now and is unapproved; the sweep of expired logins is kept when the limit or the draws refuse |
| AuthAnswers.LookupIsExact | src/store.rs:890-903 | the client of the one open flow of the normalised code, and none if there is none; nothing changes |
| AuthAnswers.ApprovalIsExact | src/store.rs:906-925 | approval succeeds exactly when the normalised code has an open, unapproved flow; that flow alone is approved, for that principal |
| AuthAnswers.PollSparesOthers | src/store.rs:928-1033 | a poll touches no flow but its own; unknown codes are expired |
| AuthAnswers.StepKeepsOwners | migrations/0001_auth_and_ownership.sql:28-45 | no operation leaves a credential without an existing principal |
| Attribution.AnsweredAsHolder | src/store.rs:1535-1591 | after every run a secret that is let in is let in as the principal it was last issued, provisioned or delivered to |
| PurgeTransparency.StepSimilar | src/store.rs:550-1033 | two stores that differ in dead rows only give the same answers and still differ in dead rows only, for every operation; for a provisioning that is not refused outright both must hold the same row of its token, or none |
| PurgeTransparency.ErasedRun | src/store.rs:709-735 | a run and the same run without its purges end in stores that differ in dead rows only, with equal observations, if no provisioning of the run meets a token whose dead row a purge has taken |
| PurgeTransparency.PurgeIsUnobservable | src/store.rs:709-735 | purges may stand anywhere in a run: dropping them all changes no answer of authentication, credential creation, provisioning, OAuth or device login, if and only if no provisioning, unless refused outright, meets a token whose dead row a purge has taken |
| PurgeTransparency.TakenIsSeen | src/store.rs:601-657 | a provisioning that does meet one always gives another answer than without the purge |
| PurgeTransparency.RevocationCountSeesPurge | src/store.rs:485-706 | a purge lowers the count of any revocation, by secret, id, principal or label, by exactly the expired unrevoked rows of its selection |
| PurgeTransparency.ProvisioningSeesPurge | src/store.rs:601-657 | provisioning answers the same before and after a purge exactly when it is refused outright or no dead row of the token is there |
| PurgeTransparency.DeadTokenBlocksMove | src/store.rs:612-627 | with a dead row of the token, provisioning succeeds exactly for the row's principal; after a purge, for any |
| CredentialBound.PruneKeepsNewest | src/store.rs:1456-1533 | after a prune a principal's dynamic rows are exactly its newest active ones |
| CredentialBound.PruneIsExact | src/store.rs:1456-1481 | for every row: it survives a prune exactly if it is another principal's, or active and either managed or with fewer than 32 newer active dynamic ones |
| CredentialBound.PruneSpares | src/store.rs:1456-1481 | a prune touches neither other principals nor active managed tokens |
| CredentialBound.IssueKeepsNewest | src/store.rs:1484-1533 | issuing keeps the new row and, of the active dynamic rows, the newest 32, each newer than any active one that went; others are untouched |
| CredentialBound.EveryStateIsBounded | src/store.rs:24 | every reachable state has at most 32 sessions and 32 dynamic tokens of each principal |
| DeviceLogin.DeviceLoginWord | src/store.rs:813-1033 | over every interleaving the answers for one device code are (Pending or SlowDown)*, then at most one Authorized with Consumed*, then Expired*; Authorized carries the principal of the only approval, made before expiry; Expired exactly from the expiry on |
| DeviceLogin.PollIsAnsweredByHistory | src/store.rs:928-1033 | in every run each poll before the expiry, before the delivery and not too soon is Pending exactly until the first approval, and then Authorized for its principal, unless the token's lifetime does not fit or its secret is taken; every other answer is fixed by the history too |
| DeviceLogin.ApprovalIsAnsweredByHistory | src/store.rs:906-925 | in every run, before the expiry, the first approval of the code by an existing principal succeeds and every later one answers false |
| DeviceLogin.LookupIsAnsweredByHistory | src/store.rs:890-903 | in every run, before the expiry, looking up the code shows the client that started the login until the delivery |
| DeviceLogin.DeliveryInserts | src/store.rs:986-1032 | an Authorized answer inserted exactly one token of that principal, through the pruning insert, and returned it |
| DeviceLogin.DevicePollsArePaced | src/store.rs:961-985 | answers let through are an interval apart; SlowDown exactly for polls too soon after the last; patient clients never get it, impatient ones nothing else until delivery or expiry |
| DeviceLogin.DisplayedCodeIsNormal | src/store.rs:1848-1872 | a displayed user code is its own normal form, and what is typed normalises to it exactly when the letters and digits agree |
| IdleTimeout.RunLags | src/store.rs:1419-1430 | after every run, provisioning included, the stored expiry of a secret is the timeout counted from less than an hour before it was last issued, provisioned or accepted |
| IdleTimeout.RefusedAfterTimeout | src/store.rs:1535-1591 | once the full timeout has passed since a secret was last issued, provisioned or accepted it is refused, whatever else happened |
| IdleTimeout.AcceptedWithinTimeout | src/store.rs:1535-1591 | up to an hour before the timeout a secret never revoked or evicted is accepted, unless a new expiry would not fit in 64 bits |
| IdleTimeout.OnlyRevocationOrEviction | src/store.rs:1456-1607 | of all operations only a revocation that covers it, or a full set of 32 dynamic credentials of the principal that are all newer, ends a live credential before its time |
| IdleTimeout.RollsAreHourly | src/store.rs:1419-1430 | an operation either leaves a row's last use and expiry alone or writes both for the full timeout: at least an hour after the last write, or by provisioning this very token |
| OAuthLogin.CallbackIsAnsweredOnce | src/store.rs:741-810 | over every interleaving a stored OAuth transaction answers exactly the first callback, if before its expiry, with verifier, nonce and target as stored; every other callback gets nothing |
| Revocations.RevocationIsFinal | src/store.rs:688-706 | a credential covered by a revocation, by secret, id, principal or reserved label, is refused ever after, until this very secret is issued or provisioned again |
| AuthStore.Store.UpsertPrincipal | src/store.rs:357-457 | blank names are refused; a known identity keeps its id, a new one gets an unused id; rights become the given ones, name and address only at a login, and times as the two statements set them; no other principal changes |
| AuthStore.Store.CreateCredential | src/store.rs:1484-1533 | outcome and whole new state are those of the creation step |
| AuthStore.Store.AuthenticateCredential | src/store.rs:1535-1591 | outcome and whole new state are those of the authentication step, which `AuthAnswers.AuthenticationIsExact` fixes; the principal's last-seen and update times are refreshed exactly when the row is rolled |
| AuthStore.Store.RevokeCredential | src/store.rs:1593-1607 | outcome and whole new state are those of revocation by secret, which `AuthAnswers.RevocationIsExact` fixes |
| AuthStore.Store.RevokeApiTokenById | src/store.rs:698-706 | outcome and whole new state are those of revocation by id |
| AuthStore.Store.RevokePrincipalCredentials | src/store.rs:485-508 | both tables are revoked and the counts added |
| AuthStore.Store.RevokeManagedApiTokens | src/store.rs:584-595 | exactly the unrevoked rows with reserved labels are revoked and counted |
| AuthStore.Store.ProvisionStaticApiToken | src/store.rs:601-657 | outcome and whole new state are those of provisioning: revive, refuse another principal, or insert |
| AuthStore.Store.PurgeExpired | src/store.rs:709-735 | the four deletions and the sum of their counts |
| AuthStore.Store.StoreOAuthFlow | src/store.rs:741-786 | outcome and state of storing a login transaction, with the sweep, the limit and the unique state |
| AuthStore.Store.ConsumeOAuthFlow | src/store.rs:789-810 | a live transaction is removed and returned, anything else answers none |
| AuthStore.Store.StartDeviceFlow | src/store.rs:813-887 | up to four draws: the first that violates no unique column is inserted; the sweep is kept even on refusal |
| AuthStore.Store.GetDeviceFlowClientName | src/store.rs:890-903 | answers the client of the one open flow of the normalised code |
| AuthStore.Store.ApproveDeviceFlow | src/store.rs:906-925 | approves the one open unapproved flow of the normalised code and says whether there was one |
| AuthStore.Store.PollDeviceFlow | src/store.rs:928-1033 | answer and whole new state are those of the poll step, errors rolling everything back; `DeviceLogin.PollIsAnsweredByHistory` fixes the answers |
| AuthRuntime.PlanFollowed | src/store.rs:601-657 | provisioning a list of tokens after a revocation leaves as unrevoked managed rows exactly the listed ones, and rows of other secrets as they were |
| AuthRuntime.OneOwnerPerToken | src/store.rs:618-627 | a list that gives one token to two principals is refused |
| AuthRuntime.PlanIsConfigured | src/auth.rs:54-94 | the provisioned list is the configuration: service accounts, upload tokens less delete tokens, delete tokens |
| AuthRuntime.DynamicRowsKeptIff | src/store.rs:612-657 | provisioning a list of tokens leaves a dynamic row as it was exactly when the list does not name its secret |
| AuthRuntime.ConfiguredDynamicTokenIsTaken | src/store.rs:584-637 | a concrete dynamic token that becomes managed by being configured, and is revoked by the next rotation |
| AuthRuntime.ProvisionServices | src/auth.rs:54-62 | the loop over service accounts provisions each with its own principal and label, and gives it its configured rights |
| AuthRuntime.ProvisionShared | src/auth.rs:64-94 | a set of shared tokens is provisioned to one principal, which is created only if the set is not empty, is no administrator, and may delete everything only for delete tokens |
| AuthRuntime.Initialize | src/auth.rs:51-94 | startup succeeds exactly when accounts are named and have tokens, no token is blank or given to two principals, the lifetime fits and no token has a row of another principal; then the unrevoked managed tokens are exactly the configured ones, each on its configured principal, a dynamic token is unchanged exactly when its secret is not configured, and the configured principals, and no others, have the configured rights |
| Text.ValueOfDecimal | src/paste.rs:228-230 | a printed number reads back as itself |
| Text.DigitOrder | src/util.rs:41-43 | on digit strings of one length alphabetical order is numerical order |
| Expiry.ExpiryRoundTrip | src/ownership.rs:110-127 | a name with a printed expiry of ten or more digits splits into the name and the seconds of the metadata, or the same refusal |
| Expiry.PlainRoundTrip | src/ownership.rs:110-117 | a name without an expiry is read back as itself exactly when it does not look like one with |
| Expiry.CeilBounds | src/server.rs:738-750 | rounding to seconds never advances the expiry and delays it by less than a second |
| Expiry.ReadersAgreeWithinASecond | src/util.rs:45-53 | what the suffix calls live the metadata calls live; the metadata gives up within a second after; of what it calls live the suffix serves exactly what fits in 64 bits of milliseconds and has not passed, and of what it gave up the sweep takes exactly what fits |
| Siblings.GlobMatchFile | src/util.rs:29-57 | the loop over a sorted listing answers with the last match, if live, and else the stripped name |
| Siblings.GlobFindsLiveSibling | src/util.rs:29-57 | with suffixes of one width the answer is the latest-expiring sibling if any is live, and the stripped name otherwise |
| Siblings.LiveSiblingFoundIff | src/util.rs:41-55 | in general a live sibling is found exactly when every dead one sorts before some live one |
| Siblings.ShorterSuffixHidesLiveSibling | src/util.rs:41-55 | a directory in which, until the year 2027, an expired file hides a live one |
| Siblings.SidecarsHideLiveSiblings | src/util.rs:41-55 | for any name and time, if every live match has its password file in the directory, the lookup finds none of them |
| Siblings.TimestampInRequestIsIgnored | src/util.rs:29-40 | a request that carries a timestamp is answered like the bare one |
| Extensions.GetExtensionFromFilename | src/util.rs:67-100 | the search loop over the parts returns the compound extension of the specification |
| Extensions.ExtensionIsCut | src/util.rs:67-100 | the extension is the longest known suffix, lengthened by the part before it if that is known by itself; the part after the last dot if nothing is known; none if there is no dot but a leading one |
| Extensions.TarGz | src/util.rs:80-84 | with gz and tar known and tar.gz not, a.tar.gz has the extension tar.gz |
| Extensions.SplitIsLossless | src/util.rs:67-100 | stem, dot and extension make up the name, so cutting the extension off cannot reach before its start |
| Extensions.RebuiltNameIsSame | src/paste.rs:184-217 | cut and set again the name is itself exactly when the extension is not empty and the stem has no dot but a leading one |
| Pastes.InsertKeepsSchema | migrations/0001_auth_and_ownership.sql:83-105 | both inserts keep paths, owner-scoped keys and link keys unique |
| PasteRuns.RunKeepsPastesOk | src/store.rs:1036-1167 | over runs of inserts, deletions and faithful scans, link keys are filenames, owned unexpired rows hold theirs, deduplication keys name their content |
| PasteRuns.LinksAreUnambiguous | src/store.rs:1712-1773 | in every state of a run a public filename has at most one unexpired owned row |
| PasteRuns.InsertOutcomes | src/store.rs:1036-1082 | an owned insert conflicts exactly when the filename is visible, and fails on the path exactly when it is not but the path is taken |
| PasteRuns.LinkIndexNeverFires | migrations/0002_public_link_reservations.sql:3-5 | a unique violation in a reachable state is always one of the storage path |
| PasteRuns.FreshPasteIsFoundAlone | src/store.rs:1193-1209 | a fresh owned unexpired paste is the only row its public filename finds |
| PasteRuns.InsertIsExact | src/store.rs:1036-1082 | which of stored, conflict, taken path and invalid the plain insert answers when, the row it stores, and that other rows lose at most an expired reservation |
| PasteRuns.DeduplicationIsExact | src/store.rs:1089-1167 | the deduplicating insert answers with the duplicate exactly if there is one, and otherwise stores, conflicts or fails on the path; the row it stores, and what becomes of the others |
| PasteRuns.CategoriesAreCompatibility | src/server.rs:752-760 | sharing a deduplication category is the server's compatibility test |
| PasteRuns.DedupKeyIsInjective | src/store.rs:1107 | the printed key loses neither category nor hash |
| PasteRuns.ContentIsKeyedOnce | migrations/0001_auth_and_ownership.sql:103-105 | in every state of a run at most one keyed row has a given owner, category and hash |
| PasteRuns.DuplicateIsCompatible | src/store.rs:1089-1167 | a duplicate is the owner's, of the same hash and a compatible type; an insert met no such row |
| Reconciliation.ReconcileIsExact | src/store.rs:1294-1363 | paths equal the scan's; the tally is the two set differences and accounts for the row count; survivors keep id, owner, creation time and keys |
| Reconciliation.ReconcileDiscovers | src/store.rs:1322-1344 | a file that had no row gets one with the owner and creation time of the first scan entry of its path |
| Reconciliation.ReconcileIsIdempotent | src/store.rs:1294-1363 | a second run on the same scan reports (0, 0) and changes only the update time |
| Reconciliation.RetainExistingPastes | src/main.rs:240-263 | the loop that grows path set and scan together appends the listed rows of unread paths |
| Reconciliation.PartialScanLosesNothingLive | src/main.rs:280-298 | after a partial scan exactly the rows both expired and unscanned are gone; live unscanned rows change only their update time |
| PasteStore.Store.InsertPaste | src/store.rs:1036-1082 | outcome and whole new table are those of the insert, every error rolling back |
| PasteStore.Store.InsertPasteDeduplicated | src/store.rs:1089-1167 | outcome and whole new table are those of the deduplicating insert |
| PasteStore.Store.DeletePaste | src/store.rs:1261-1271 | removes the row of the id and returns what it was |
| PasteStore.Store.DeletePasteByStoragePath | src/store.rs:1274-1287 | removes the one row of the path and returns what it was |
| PasteStore.Store.RemoveAbsent | src/store.rs:1311-1320 | the loop over stored paths deletes and counts exactly the rows the scan lacks |
| PasteStore.Store.UpsertScan | src/store.rs:1322-1360 | the loop over the scan inserts or refreshes one row per entry and counts the inserts |
| PasteStore.Store.ReconcilePastes | src/store.rs:1294-1363 | outcome and whole new table are those of the reconciliation |
| SidecarLock.EveryInterleavingKeepsLock | src/paste.rs:232-257 | in every interleaving whose rollbacks find content of their name, content has the sidecar of the upload that wrote it, every sidecar guards its content or is held, and one process at most is between the two files of a name |
| SidecarLock.UploadsAndRemovalsKeepLock | src/password.rs:69-107 | from an empty directory, with uploads and removals only: content always has its sidecar, and a name at most one holder |
| SidecarLock.LockedUploadSucceeds | src/paste.rs:248-257 | an upload that created its sidecar never finds content in the way |
| SidecarLock.RollbackKeepsGuaranteeIff | src/server.rs:762-771 | after a rollback content has its password file in every continuation if and only if some content of its name, its own or another upload's, was in place; otherwise ordinary uploads and removals can leave content without it |
| SidecarLock.RollbackUnguardsContent | src/server.rs:762-771 | a concrete run of an upload that is rolled back, a removal and another upload that leaves the other's content without its password file |
| SidecarLock.RollbackTakesAnotherIff | src/server.rs:762-771 | a rollback removes content that another upload wrote if and only if there is content of the name and it is not its own |
| SidecarLock.RollbackDestroysAnotherPaste | src/server.rs:762-771 | a concrete run in which an upload is stored and the late rollback of an earlier one removes it |
| SidecarLock.ExpiringPastesAreNotFound | src/util.rs:41-55 | after any interleaving of protected uploads and removals the lookup of a name answers with the stripped name, at any time: no expiring paste is found |
| SidecarLock.UploadAlone | src/paste.rs:232-257 | uninterrupted, the file operations of a protected upload are the upload step's effect on the directory |
| SidecarLock.RemovalAlone | src/server.rs:375-388 | uninterrupted, the file operations of a removal and of a rollback remove the same files as their steps |
| Uploads.RetryLoopSettles | src/server.rs:703-727 | without interference the loop needs at most two passes and never gives up; it returns a record only if its file exists, succeeds only with the new row present, and deletes no row whose file exists |
| Uploads.EveryFileHasOneRow | src/server.rs:618-657 | after any run of uploads, deletions and sweeps every stored paste file has exactly one row |
| Uploads.OversizedExpiryIsUntracked | src/server.rs:642 | if every stored file has a row, it stays so after any upload exactly when its expiry fits the metadata, or it stores no file, or its path has a row already |
| Uploads.OversizedUploadIsUntracked | src/server.rs:642 | a concrete upload that fails and leaves its file without a row |
| Uploads.RefusedStore | src/server.rs:762-771 | what a refused or folded upload whose expiry fits leaves of the directory, stored or not: everything, but for a file at its sidecar's name if it got as far as creating files; only stale rows are dropped |
| Uploads.RefusedUploadRestores | src/server.rs:463-657 | the whole upload: refused or folded it restores the directory exactly when it takes no companion and stores no file with an oversized expiry; only stale rows are dropped |
| Uploads.RefusedUploadTakesCompanion | src/server.rs:652-655 | a concrete site where a refused upload removes the file of another one |
| Uploads.FoldedRecordIsServed | src/server.rs:463-650 | a folded upload is answered with an existing file exactly when the optimistic check answered it, or the record of its content does not claim the upload's own path or sidecar; both can be seen before the upload |
| Uploads.StaleRecordOfSamePathSwallowsUpload | src/server.rs:646-650 | a URL whose stored content is claimed by a stale record at its own path, and whose bytes as sent are unknown, is removed and answered with that record |
| Uploads.NormalisedUrlIsSwallowed | src/paste.rs:354-389 | a concrete upload to which this happens |
| Uploads.SweepIsExact | src/main.rs:169-178 | a sweep removes exactly the listed files, their sidecars and their rows |
| Uploads.SweepLeavesNothingExpired | src/util.rs:105-131 | after the sweep of what was listed nothing expired is left; another file is gone exactly when it has the name of an expired file's sidecar, and its row stays |
| Uploads.VisiblePasteSweptIff | src/util.rs:105-131 | exactly which visible pastes a sweep takes: with an expiry, in the last fraction of the final second; without, when the name ends in a number of milliseconds that has passed |
| Uploads.NumberedNameIsSwept | src/util.rs:105-131 | a site with a visible upload named backup.2024, without an expiry, that loses file and row to a sweep |
| Uploads.SweepTakesNeighbour | src/main.rs:169-178 | a site where the sweep of an expiring paste takes the file of another upload and leaves its row |
| Uploads.DeletionTakesNeighbourIff | src/server.rs:375-388 | a deletion takes another upload's file exactly when that has the name of the deleted file's sidecar; every other row stays |
| Uploads.DeletionTakesNeighbour | src/server.rs:375-388 | a site where the owner of a deletes it, and the upload a.password of another owner loses its file and keeps its row |
| UploadAnswers.DeletionIsExact | src/server.rs:310-373 | a deletion succeeds exactly when the first visible record of the filename with a file is the requester's or the requester may delete everything, is forbidden exactly when it is not, finds nothing exactly when there is none; that one row and its pair of files go, and a refusal changes nothing |
| UploadAnswers.CheckIsExact | src/server.rs:475-501 | the check answers exactly when the owner's newest unexpired paste of the content is compatible and has its file, with that paste; it drops that paste's row exactly when the file is lost |
| UploadAnswers.PersistAnswers | src/server.rs:689-727 | what the retry loop answers, on the rows less a duplicate that has lost its file |
| UploadAnswers.UploadIsAnswered | src/server.rs:463-657 | every upload: found early, refused by a file in the way, found late, or recorded, folded, conflicting or failing, each with its exact condition |
| UploadAnswers.UploadSparesOthers | src/server.rs:463-657 | an upload drops only rows of the uploader, of the upload's content, whose file is missing, and adds a row only if accepted |
| UploadAnswers.FoldedIntoOwn | src/server.rs:486-499 | a folded upload is answered with a paste of the uploader's own that was there, of the upload's content and a compatible type, whose file was there; unexpired if found early |
| UploadAnswers.AcceptedIsStored | src/server.rs:618-657 | an accepted upload leaves its files where none were, and one row with owner, name, path, type, times, size, expiry, content and keys of the upload |
| Uploads.FindOwnerDuplicate | src/store.rs:1212-1229 | the owner's newest unexpired row of the hash, none exactly when the owner has none |
| Uploads.FirstRecord | src/server.rs:316-329 | the first record, by type then id, whose file exists; none exactly when there is none |
| Server.UploadServer.StoreFile | src/paste.rs:223-262 | sidecar before content, exclusive creation, own sidecar taken back: result and whole directory |
| Server.UploadServer.StoreUrl | src/paste.rs:354-389 | exclusive creation of a URL file: result and whole directory |
| Server.UploadServer.StorePasswordHash | src/password.rs:69-77 | the sidecar is created unless it exists |
| Server.UploadServer.DeletePasswordFile | src/password.rs:101-107 | the sidecar and nothing else is removed, if it exists |
| Server.UploadServer.RemoveNewUpload | src/server.rs:762-771 | the path and its sidecar are removed, and nothing else |
| Server.UploadServer.RemovePasteFile | src/server.rs:375-388 | content then sidecar, and nothing if there is no content |
| Server.UploadServer.PersistPasteMetadata | src/server.rs:689-727 | the bounded retry loop computes its specification and never ends in its final error |
| Server.UploadServer.CheckDuplicate | src/server.rs:475-501 | the owner's existing compatible file answers, the row of a missing file is deleted; `UploadAnswers.CheckIsExact` fixes the check |
| Server.UploadServer.RecordMetadata | src/server.rs:618-657 | recording the metadata or rolling the file back: reply, directory and table |
| Server.UploadServer.UploadPart | src/server.rs:463-657 | one part of an upload: reply, directory and table are those of the upload step |
| Server.UploadServer.Delete | src/server.rs:310-354 | reply, directory and table are those of the deletion step, which `UploadAnswers.DeletionIsExact` fixes |
| Server.UploadServer.CleanUp | src/main.rs:169-178 | the loop over expired files is the sweep |
| Restarts.ScanPastes | src/ownership.rs:22-67 | the scanning loop returns the readable entries in order and the number of unreadable ones |
| Restarts.ScanIsExact | src/ownership.rs:69-108 | the scan has an entry for each file whose name splits, password files aside, with its path, type, name, expiry, times, size and digest, and no other; the unreadable ones are counted |
| Restarts.ScanIsComplete | src/ownership.rs:69-108 | when nothing was skipped and no sidecar is orphaned the scan has an entry for each paste file and no other |
| Restarts.ReadBackIff | src/ownership.rs:110-127 | exactly which uploads a scan reads back as they were named and dated |
| Restarts.ScanOfSiteIsFaithful | src/ownership.rs:69-101 | a complete scan of a directory in agreement finds each file as its row describes it |
| Restarts.RestartIsExact | src/main.rs:280-298 | a restart after a complete scan inserts nothing, removes exactly the rows whose file is gone, and keeps id, owner, name, expiry, content, category and keys of the others |
| Restarts.PartialRestartTracksIff | src/main.rs:240-298 | a restart after a partial scan leaves no file without a row if and only if every unscanned row whose file is there is visible when the rows are listed |
| Restarts.EveryLifeAgrees | src/main.rs:266-298 | through any sequence of uploads whose names are read back, deletions, sweeps, restarts after complete scans and restarts after partial scans that hide no such row: one row per stored file, telling what a scan would; one visible owned row per filename; one keyed row per content |
| Restarts.AcceptedUploadAgreesIff | src/ownership.rs:110-127 | an accepted upload keeps this agreement exactly when its name is read back |
| Restarts.MisreadUploadIsRenamed | src/ownership.rs:110-127 | a restart gives the row of a plain upload that ends like an expiry a shorter name and that expiry |

## Left out

- HTTP handlers, cookies, origin checks, multipart decoding, landing page, security headers: thin wrappers around the operations modelled here.
- OIDC discovery and token exchange, remote downloads, URL and address checks: they rest on network libraries.
- SHA-256, Argon2, base64 and random generation: an injective digest, an opaque sidecar, and arguments.
- `validate_return_to` and the check of device client names: flags of the operations.
- Queries that list principals and pastes; principals are never deleted.
- Server.UploadServer.StoreUrl: the URL is already parsed and normalised and the name chosen; only the file operations are modelled.
- The MIME table: the predicate `known` of the extension search. `path_clean`, glob metacharacters and names with slashes: listings and final path components are parameters.
- Random names, header overrides and space handling before a file is stored: an upload comes with its chosen filename.
- One upload part per operation; one clock reading per operation, where the program reads the clock for each statement.
- Failed writes and removals, and processes that stop half-way.
- Files renamed after a one-shot download, and the separate sweep of orphaned password files. `Restarts.ScanIsComplete` assumes that no orphan is there.
- The delay between removing an expired file and deleting its row: a sweep is one step.
- The directory size limit and the MIME blacklist.
- Uploads without an authentication store, which keep no metadata.
- `trim` of content hashes covers ASCII white space only; names are sequences of characters, without UTF-8 encoding errors.
- The authentication tables and the paste table are two store objects; the foreign key from pastes to principals is not checked.
- Uploads.FindOwnerDuplicate: rows with equal creation times come in the order of their ids, where the query leaves the order open.
