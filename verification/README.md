# Field keys, access grants and style packages: a verified model

This project models three parts of the system and proves what they promise.

**Versioned field keys.** SSN and EIN values are stored sealed under the active
row of a key table. Administrators rotate that key, flag retired keys as
compromised and set decrypt deadlines; every process holds an immutable snapshot
of the usable keys and refreshes it under a TTL, a rate limit and a mutex; a read
of a value sealed under an older key re-encrypts it and swaps the replacement in.

- `Aead`, `Blobs`, `KeySets`: AES-256-GCM as an ideal AEAD (RFC 5116, sections
  2.1, 2.2 and 5.2), the blob format, one snapshot, and how a snapshot is built
  from key records held in buffers.
- `KeyTables`, `KeyTransactions`, `KeyTransactionRuns`, `KeyStores`, `KeyMaterial`,
  `KeyAdmin`: the key table as a value with its invariant; its transactions
  interleaved statement by statement, shown to amount to atomic operations on that
  value, and what competing ones do to each other over runs; the table as an object,
  the adapter above it, and the administrative handlers.
- `Ciphers`, `LoadBudget`, `Staleness`, `Reloads`: the cipher object, what a
  stream of calls costs, how stale an encryption key can get, and concurrent
  reloads.
- `Bootstrap`, `BootstrapRace`: the constructor, and any number of them racing.
- `TaxIds`, `TaxIdStores`, `RotatingCiphers`: the encrypted column, its ordinary
  writers, and the re-encrypting read as code.
- `WriteBack`, `WriteBackRuns`, `WriteBackProgress`, `WriteBackFailures`: that read
  as a state machine among writers, clears, rotations and other readers, with row
  locks, failures and lock timeouts; its guarantees over whole runs, and exactly when
  it fails a read of a sound row.
- `RotatingProtocol`: the read as code and the read as a participant of that state
  machine are the same read.

**Access grants** (`GrantTables`). The generated access function: two recursive
closures over group graphs that may be cyclic, and a union of three arms.

**Style packages** (`ThemeLoaders`, `SemverRanges`). The loader's
latest-call-wins protocol on one document, and the range check it relies on.

Clock readings, store answers, nonces and failures are inputs: lemmas quantify
over all of them. `Wrappers` holds the option and result types.

## Where the code and its comments differ

- `verifyStale` calls any version but the rotation's target "not reachable by a
  legitimate writer". It is reachable by two: a writer whose snapshot is newer than
  the reader's, and one whose snapshot is staler, under a version between the
  compromised one and the target. The read then fails although the row is sound.
  `WriteBackFailures.RereadFailsExactlyWhen` gives the exact condition and
  `WriteBackFailures.SoundRowRefused` a run of either kind. The model follows the
  code.
- `attemptWriteBack` says a failed commit means nothing was stored. A commit can land
  and be reported as failed: `WriteBackFailures.UnreportedCommitFailsRead` is a run in
  which the row ends under the target version and the read in an error, and
  `WriteBackFailures.LandedCommitFailsExactlyWhen` the exact condition. Every guarantee
  still holds.
- `Encrypt` says a zero-length blob is stored as NULL; a cleared field is stored as
  the empty value (`TaxIds.Column` keeps the two apart, and both read as "").
- An accepted deadline can violate the table's check and end as a server error:
  exactly when it lies before the retirement, which takes a transaction that began
  before the key was retired (`KeyTransactionRuns.CheckFailsExactlyWhen`; a run in
  `KeyTransactionRuns.DeadlineRaceViolatesCheck`).
- An unload draws no token, so a load in flight still injects its link afterwards
  (`ThemeLoaders.UnloadCancelsNothing`).

## Model

| member | source | states |
|---|---|---|
| WriteBackRuns.StoredValueIsLastWritten | api/service/rotating_cipher.go:260-365 | in every reachable state of any interleaving, every stored blob decrypts under the full key table to the last value set or cleared in that row |
| WriteBackRuns.OnlyOrdinaryWritesChangeValues | api/service/rotating_cipher.go:268-281 | between ordinary writes to a row its decrypted value never changes, whatever write-backs, rotations, refreshes and failures happen |
| WriteBackRuns.CompromisedReadIsSafe | api/service/rotating_cipher.go:237-247 | a read away from a compromised key ends in the unpersisted error, or returns its plaintext and, at the instant its committed transaction re-read or replaced the row, nothing was left under another version |
| WriteBackRuns.StandardRotationNeverFailsRead | api/service/rotating_cipher.go:249-257 | under a key not known leaked, a rotating read ends with the value the row had when it was fetched, whatever happened to its write-back |
| WriteBackRuns.ReadReturnsFetchedValue | api/service/rotating_cipher.go:220-258 | a plaintext that is returned is the value the row had when its blob was fetched |
| WriteBackRuns.EveryMoveAdvances | api/service/rotating_cipher.go:284-301 | a read makes at most two attempts and ends after at most nine steps of its own |
| WriteBack.StepKeepsInvariant | api/service/rotating_cipher.go:306-365 | every step of every participant keeps the invariant tying columns, locks, jobs and snapshots to the table's history |
| WriteBack.RotationIsGood | api/internal/fieldcrypto/fieldcrypto.go:302-325 | a rotation computed under any earlier snapshot reads as the same value under the current table and points to a higher version |
| WriteBackProgress.SwapRaisesVersion | model/db/natural_persons.sql.go:115-119 | a swap that lands raises the stored version, at most to the active one, and changes no other row |
| WriteBackProgress.SwapsBoundedByLag | api/service/rotating_cipher.go:293-365 | between ordinary writes and rotations, at most as many swaps land as the stored versions lag behind the active one in total |
| WriteBackProgress.StepLowersLag | api/service/rotating_cipher.go:336-339 | every quiet step keeps the total lag or lowers it, a swap that lands by at least one |
| WriteBackProgress.NoLagMeansRotated | api/service/rotating_cipher.go:249-254 | no lag is left exactly when every stored value is under the active key |
| WriteBackProgress.UnobstructedWriteBackLands | api/service/rotating_cipher.go:331-339 | with the row as it was read, unlocked and no failure, swap and commit exist, put the row under the target version and return its value |
| WriteBackProgress.UnobstructedWriteLands | api/service/natural_person.go:307-332 | with the row unlocked and no failure an ordinary write runs through, and leaves the column, the empty value or a blob that reads as the new value |
| WriteBackProgress.BenignLossStillReads | api/service/rotating_cipher.go:384-401 | a swap lost to whoever left the row safe does not fail the read: re-read and commit return its value |
| WriteBackFailures.RereadFailsExactlyWhen | api/service/rotating_cipher.go:405-425 | a re-read fails the read exactly when the row is gone or holds a version other than the target, while the row decrypts to its current value all along |
| WriteBackFailures.SoundRowRefused | api/service/rotating_cipher.go:396-401 | for either kind of writer, a run in which a row just written under an uncompromised key is refused |
| WriteBackFailures.LandedCommitFailsExactlyWhen | api/service/rotating_cipher.go:357-364 | a commit that lands ends the read in an error exactly when it is reported as failed and the key is compromised |
| WriteBackFailures.UnreportedCommitFailsRead | api/service/rotating_cipher.go:357-364 | a run in which the row ends under the target version and the read in that error |
| RotatingProtocol.AttemptIsTheProtocol | api/service/rotating_cipher.go:306-365 | on surroundings drawn from any run, what an attempt reports is what the protocol's reader becomes, and its swap lands in the one exactly when it lands in the other |
| RotatingProtocol.WriteBackIsTheProtocol | api/service/rotating_cipher.go:220-301 | over both attempts the protocol's read ends with exactly the result the code returns |
| RotatingProtocol.OpeningIsTheProtocol | api/internal/fieldcrypto/fieldcrypto.go:302-325 | the decrypt before them refuses, returns or starts rotating alike in both |
| WriteBackProgress.KeepCommitIsInvisible | model/db/natural_persons.sql.go:88-105 | committing an update without the field leaves every encrypted column as it was last committed |
| WriteBackProgress.KeepCommutesWithWriteBack | api/service/natural_person.go:307-332 | such an update and a write-back leave the same columns in either order |
| TaxIds.VerifiedIsSafe | api/service/rotating_cipher.go:405-425 | verification accepts exactly an empty row or one under the target version, and what it refuses as still compromised |
| RotatingCiphers.AttemptWriteBack | api/service/rotating_cipher.go:306-365 | the attempt's outcome in every situation, and that it changes at most its row's blob, over the exact blob read, by a commit that lands |
| RotatingCiphers.WriteBack | api/service/rotating_cipher.go:260-301 | the replacement lies over the committed rows, all else untouched, exactly when the deciding attempt's swap landed, and otherwise rows others committed; success means its own committed transaction left or met a safe row |
| RotatingCiphers.AttemptPersistsSafely | api/service/rotating_cipher.go:322-364 | an attempt reports success only if its committed transaction left or found the row safe |
| RotatingCiphers.DecryptRotating | api/service/rotating_cipher.go:220-258 | the four branches of the policy and what each leaves in the table |
| TaxIdStores.UpdateRecord | api/service/natural_person.go:260-349 | an absent field leaves the column as it was, a blank one stores the empty value, and any other a blob under the active key that opens to it; names not given stay; a failure changes nothing unless its commit went unreported |
| TaxIdStores.CreateRecord | api/service/corporation.go:99-163 | a blank value is stored as NULL and any other as a blob under the active key that opens to it |
| TaxIdStores.EncryptChange | api/service/corporation.go:239-255 | the write parameter, passed through COALESCE over any column, stores the requested change |
| KeyTransactions.CommitIsAtomic | api/httpapi/field_crypto_keys.go:323-372 | a commit installs exactly what its whole transaction, run alone at that instant, would |
| KeyTransactions.StepKeepsInvariant | model/migrations/0017_field_crypto_keys.sql:32-79 | every statement of every interleaved transaction keeps the table invariant, the row locks disjoint and one holder of the active slot |
| KeyTransactions.RunRefinesAtomic | api/httpapi/field_crypto_keys.go:323-372 | the committed states of any run are a run of atomic operations |
| KeyTransactions.RunKeepsTable | model/migrations/0017_field_crypto_keys.sql:32-79 | in every reachable state one active row with the highest version once bootstrapped, one row per rotation plus the first, and nothing later undone |
| KeyTransactions.LoneRotationCommits | api/httpapi/field_crypto_keys.go:323-372 | with nobody in the way the five statements of a rotation of fresh material exist and commit exactly that rotation |
| KeyTransactionRuns.NoKeyIsRetiredTwice | api/httpapi/field_crypto_keys.go:396-406 | of all rotations that set out against one incumbent at most one commits: no two committed ones retired the same key |
| KeyTransactionRuns.LosingRotationFindsNothing | api/httpapi/field_crypto_keys.go:396-406 | every other one finds, however much later it gets the lock, that its retire matches no row |
| KeyTransactionRuns.ScanExactlyWhen | api/httpapi/field_crypto_keys.go:587-611 | how each transaction's first statement ends, by the committed rows it starts from |
| KeyTransactionRuns.LockExactlyWhen | model/db/field_crypto_keys.sql.go:165-245 | what each update finds and writes once it has the row lock |
| KeyTransactionRuns.InsertExactlyWhen | model/db/field_crypto_keys.sql.go:44-71 | what stands in an insert's way, what it writes, and that it uses up a version either way |
| KeyTransactionRuns.LoneFlagCommits | api/httpapi/field_crypto_keys.go:468-487 | with nobody in the way a flag change the checks allow commits exactly that change |
| KeyTransactionRuns.CheckFailsExactlyWhen | model/migrations/0017_field_crypto_keys.sql:68-70 | a flag change violates a check exactly when it sets a deadline before the retirement, and then its transaction began before it |
| KeyTransactionRuns.DeadlineRaceViolatesCheck | api/httpapi/field_crypto_keys.go:557-573 | a run in which an accepted deadline of 0 days does |
| KeyTables.StepKeepsInv | model/migrations/0017_field_crypto_keys.sql:65-79 | each atomic operation keeps the table invariant |
| KeyTables.StepIsLater | model/db/field_crypto_keys.sql.go:165-245 | no operation removes a row, changes a key, or undoes a retirement or the first compromise time |
| KeyTables.ListingBuilds | model/db/field_crypto_keys.sql.go:130-163 | a load from a table that meets its invariant always builds, and the snapshot is exactly its usable rows |
| KeyTables.SnapshotHoldsExactly | model/db/field_crypto_keys.sql.go:130-135 | a snapshot holds exactly the keys with no deadline or one still to come, with their own flags |
| KeyTables.SnapshotFitsLaterTable | api/internal/fieldcrypto/fieldcrypto.go:200-212 | a snapshot stays within every later state of the table it was taken from |
| KeyTables.SnapshotsAgree | api/internal/fieldcrypto/fieldcrypto.go:200-212 | two snapshots of one history agree on every key they share |
| KeyTables.RotationPointsForward | api/internal/fieldcrypto/fieldcrypto.go:302-325 | a needed rotation under however stale a snapshot has FromVersion < ToVersion <= the active version |
| KeyStores.KeyDb.RetireActive | model/db/field_crypto_keys.sql.go:184-218 | every active row is retired now, with a deadline exactly the given days off or none, and flagged exactly if asked; every other row stays; no row back exactly when there was none |
| KeyStores.KeyDb.InsertActive | model/db/field_crypto_keys.sql.go:44-63 | when the insert succeeds, when it is a unique violation, and the table after it |
| KeyStores.KeyDb.InsertInitial | model/db/field_crypto_keys.sql.go:65-86 | inserts exactly into an empty table; no row back exactly when there was one |
| KeyStores.KeyDb.ListUsable | model/db/field_crypto_keys.sql.go:130-163 | exactly the usable rows in version order, each in a fresh buffer of its own |
| KeyStores.LoadUsableKeys | api/fieldcrypto/fieldcrypto.go:67-88 | succeeds exactly when no version is negative, keeping the buffers intact; otherwise every buffer is wiped |
| KeyStores.AdoptInsertedRow | api/fieldcrypto/fieldcrypto.go:95-100 | an inserted row maps exactly when its version is not negative, and is wiped otherwise |
| KeyStores.Load | api/fieldcrypto/fieldcrypto.go:67-88 | a load hands over the table's listing in fresh buffers |
| KeyMaterial.HexDecodesExactlyWhen | api/internal/fieldcrypto/generate.go:148-158 | decoding succeeds exactly on an even number of hexadecimal digits |
| KeyMaterial.HexRoundTrip | api/httpapi/field_crypto_keys.go:746-765 | any bytes written in hexadecimal decode to themselves |
| KeyMaterial.MaterialExactlyWhen | api/httpapi/field_crypto_keys.go:756-782 | accepted material is exactly 64 hexadecimal digits, of either case, that are not all 0 |
| KeyMaterial.HexDecodeAt | api/httpapi/field_crypto_keys.go:756 | each decoded byte is its two digits, the higher one first |
| KeyAdmin.RotationsAreTheAcceptedOnes | api/httpapi/field_crypto_keys.go:257-310 | the rotations that pass validation are exactly those without a deadline on a compromised key, with a deadline of 1 to 36500 days or none, and usable material |
| KeyAdmin.ValidateRotateExactlyWhen | api/httpapi/field_crypto_keys.go:257-310 | which error each refused request meets, and what an accepted one asks for, with and without operator-supplied material |
| KeyAdmin.OnlyNullClears | api/httpapi/field_crypto_keys.go:525-555 | a deadline is cleared only on an explicit null, and accepted deadlines are 0 to 36500 days |
| KeyAdmin.Rotate | api/httpapi/field_crypto_keys.go:229-394 | the table after it row by row: the retired row's deadline and flag, the new row's material as supplied or generated, every other row as it was; each refusal characterised exactly |
| KeyAdmin.RotateAndReload | api/httpapi/field_crypto_keys.go:378-388 | after a rotation this process's cipher holds the new table and seals under the new version, unless its load fails, which does not fail the request, or its snapshot is already one loaded since |
| KeyAdmin.MarkCompromised | api/httpapi/field_crypto_keys.go:446-494 | on a sound table it succeeds exactly on retired versions, keeps the first compromise time and everything else, and refuses exactly the path values that are no version |
| KeyAdmin.SetGrace | api/httpapi/field_crypto_keys.go:504-585 | it succeeds exactly on retired versions whose new deadline is not before the retirement, sets the deadline that many days off or clears it, and keeps everything else |
| KeyAdmin.DeadlineFitsAfterRetirement | model/migrations/0017_field_crypto_keys.sql:68-70 | every accepted deadline fits when the transaction began after the retirement |
| Blobs.SealedOpens | api/internal/fieldcrypto/fieldcrypto.go:479-498 | a sealed blob is 32 bytes longer than its plaintext, names its version and opens to the plaintext |
| Blobs.SealBlob | api/internal/fieldcrypto/fieldcrypto.go:480-498 | the in-place buffer holds exactly prefix, nonce, ciphertext and tag |
| Blobs.SealedByAnyOpensInAny | api/internal/fieldcrypto/fieldcrypto.go:277-325 | what one process seals, every process that usably holds the version opens |
| Blobs.RotationCompletes | api/internal/fieldcrypto/fieldcrypto.go:302-325 | a rotation is needed exactly off the active version; its replacement has the blob's length, the same plaintext, and owes nothing when read again |
| Blobs.OpensExactlyWhen | api/internal/fieldcrypto/fieldcrypto.go:375-408 | a blob opens exactly when it is empty, or well formed, held, unexpired and authentic |
| Blobs.RefusedExactlyWhen | api/internal/fieldcrypto/fieldcrypto.go:375-422 | which blob is refused as malformed, unknown or past its deadline |
| KeySets.BuildSucceedsExactlyWhen | api/internal/fieldcrypto/fieldcrypto.go:507-546 | the set builds exactly on good, distinct records with one unflagged active one, and holds exactly those |
| KeySets.ErrorIsReal | api/internal/fieldcrypto/fieldcrypto.go:507-546 | a reported error is there: some record has the defect it names, or none is unretired |
| KeySets.BuildIgnoresOrder | api/internal/fieldcrypto/fieldcrypto.go:507-546 | whether it builds and what it is do not depend on record order |
| KeySets.WipedBufferRejected | api/internal/fieldcrypto/fieldcrypto.go:555-564 | no all-zero key is ever installed |
| KeySets.BuildKeySet | api/internal/fieldcrypto/fieldcrypto.go:507-546 | the loop builds the set from the buffers, or stops at the first error |
| KeySets.AdoptRecords | api/internal/fieldcrypto/fieldcrypto.go:469-476 | the snapshot is what the unwiped records describe, and every buffer is wiped |
| Ciphers.Cipher.TryReload | api/internal/fieldcrypto/fieldcrypto.go:433-477 | the reload's effect on snapshot and rate limit, and wiped buffers, in every case |
| Ciphers.Cipher.Encrypt | api/internal/fieldcrypto/fieldcrypto.go:277-368 | the call meets its specification function, refresh included |
| Ciphers.Cipher.DecryptWithRotation | api/internal/fieldcrypto/fieldcrypto.go:302-408 | the call meets its specification function, with at most one refresh |
| Ciphers.EncryptAlwaysSeals | api/internal/fieldcrypto/fieldcrypto.go:338-368 | whatever the store does, Encrypt seals under the snapshot it then holds and the blob opens under it |
| Ciphers.UnknownVersionIsFetched | api/internal/fieldcrypto/fieldcrypto.go:387-399 | a blob whose version the snapshot does not hold, or no longer honours, is fetched for exactly when there is a store and the last load is 5 s ago; the call opens it under what the load brought and fails when the load does |
| Ciphers.StaleSnapshotIsRefreshed | api/internal/fieldcrypto/fieldcrypto.go:342-368 | Encrypt refreshes exactly a snapshot 60 s old, with a store and the last load 5 s ago, and seals under what it then holds |
| Ciphers.DecryptNeverFailsToReseal | api/internal/fieldcrypto/fieldcrypto.go:311-318 | the branch for a replacement that cannot be sealed is never taken |
| Ciphers.ReloadKeepsSnapshot | api/internal/fieldcrypto/fieldcrypto.go:433-477 | only well-formed snapshots are installed, and a failed reload keeps the held one |
| Ciphers.NoLoadWithoutNeed | api/internal/fieldcrypto/fieldcrypto.go:375-390 | an empty, malformed or usable blob costs no load |
| Ciphers.StaticCipherNeverRotates | api/internal/fieldcrypto/generate.go:16-33 | a cipher made from one raw key never owes a rotation and never changes |
| LoadBudget.LastAttemptIsLatestCharge | api/internal/fieldcrypto/fieldcrypto.go:445-468 | lastLoadAttempt is always the start of the latest load that did not fail under a cancelled context |
| LoadBudget.OnlyTriggersLoad | api/internal/fieldcrypto/fieldcrypto.go:342-396 | a call that does not trigger a load changes nothing |
| LoadBudget.TriggeredLoadsSpaced | api/internal/fieldcrypto/fieldcrypto.go:424-428 | any two charged loads that calls trigger begin at least 5 s apart |
| LoadBudget.LoadBudgetHolds | api/internal/fieldcrypto/fieldcrypto.go:342-428 | of the calls whose triggered, charged loads begin in any window of length T there are at most 1 + T / 5 s |
| Staleness.TraceKeepsFresh | api/internal/fieldcrypto/fieldcrypto.go:433-477 | after any number of calls the snapshot is what one load saw, and the rate limit counts from it |
| Staleness.EncryptUsesRecentLoad | api/internal/fieldcrypto/fieldcrypto.go:342-368 | the load behind a seal ran less than the TTL before the call |
| Staleness.SealingKeyRetiredRecently | api/internal/fieldcrypto/fieldcrypto.go:118-121 | no process seals under a key retired 60 s ago or more |
| Staleness.SealedBlobStaysDecryptable | api/httpapi/field_crypto_keys.go:272-292 | a sealed blob opens under any load for a day less 60 s unless its key's grace is changed |
| Reloads.StepKeepsInv | api/internal/fieldcrypto/fieldcrypto.go:433-477 | every step of concurrent reloads keeps the invariant tying snapshots to table states |
| Reloads.ReloadIsCoherent | api/internal/fieldcrypto/fieldcrypto.go:439-443 | a reload that returns nil, by loading or by skipping, leaves a snapshot no older than the call's entry |
| Reloads.SnapshotMovesForward | api/internal/fieldcrypto/fieldcrypto.go:471-476 | no step moves the snapshot or its load time backwards |
| Reloads.SnapshotsCohereOverRun | api/internal/fieldcrypto/fieldcrypto.go:433-477 | over any run loadedAt and the active version never decrease, and snapshots agree on shared keys |
| Reloads.FailedLoadCharges | api/internal/fieldcrypto/fieldcrypto.go:445-468 | over any interleaving, a load failing under a cancelled context leaves the rate limit as before it, any other failed load is charged with its start, and neither touches the snapshot |
| Reloads.LoneReloadLoads | api/internal/fieldcrypto/fieldcrypto.go:433-477 | with nothing in the way a reload runs through and leaves the latest table in hand |
| Reloads.OwnerSkipsExactlyWhen | api/internal/fieldcrypto/fieldcrypto.go:439-443 | a call returns without a query exactly when a load that began after it entered is installed |
| Bootstrap.NewFromEnvOrGenerate | api/internal/fieldcrypto/generate.go:48-104 | it asks the store to insert exactly on an empty load, and then for the environment's key if one is set and the generated one otherwise; its result in every case; every adopted buffer wiped |
| Bootstrap.AdoptedAreTableRows | api/internal/fieldcrypto/generate.go:115-134 | what is adopted after the insert is a listing of the table, with when there is nothing to adopt, and the insert never adds to a table that has rows |
| Bootstrap.InsertInitialKey | api/fieldcrypto/fieldcrypto.go:90-101 | the guarded insert against the table, its row mapped and handed over in a fresh buffer |
| Bootstrap.SeedPassesExactlyWhen | api/internal/fieldcrypto/generate.go:177-194 | on records that build, a seed passes exactly when it is the active key, and a conflict names the active version |
| Bootstrap.ConstructedIsSound | api/internal/fieldcrypto/generate.go:90-103 | a constructed cipher is well formed, its rate limit counts from its load, and a given seed is its active key |
| Bootstrap.FirstBootConstructs | api/internal/fieldcrypto/generate.go:67-103 | a first boot stores the environment's seed if set and the generated key otherwise, and succeeds with it as the only, active key |
| Bootstrap.BootstrappedTableConstructs | api/internal/fieldcrypto/generate.go:59-103 | on a bootstrapped table construction adopts what the first load saw, and fails exactly when a seed is set that is not the active key |
| Bootstrap.LostRaceConstructs | api/internal/fieldcrypto/generate.go:83-134 | a lost race adopts what the second load saw, under the same rule |
| Bootstrap.FailuresConstructNothing | api/internal/fieldcrypto/generate.go:53-134 | each failure of the environment or the store ends in its own error |
| Bootstrap.UnusableTableIsAnError | api/internal/fieldcrypto/generate.go:121-130 | a table with rows but no usable key is always an error and never gets a new key |
| BootstrapRace.OneKeyIsEverInserted | model/db/field_crypto_keys.sql.go:65-71 | however many constructors race, at most one row is inserted, and none into a table that had rows |
| BootstrapRace.WinnersAndLosersAgree | api/internal/fieldcrypto/generate.go:48-134 | every successful constructor holds rows of the one table, all agree, and a given seed is the adopted active key |
| BootstrapRace.EstablishedKeyIsASeed | api/internal/fieldcrypto/generate.go:67-86 | the key a race establishes is the own seed of one of the racing processes, the environment's first |
| BootstrapRace.LoneFirstBoot | api/internal/fieldcrypto/generate.go:48-104 | a run in which a process alone on an empty table establishes its seed and holds it |
| BootstrapRace.LoserAdoptsWinner | api/internal/fieldcrypto/generate.go:106-134 | a run in which a process that loses the race adopts the winner's key |
| BootstrapRace.StepKeepsInvariant | api/internal/fieldcrypto/generate.go:106-134 | every step of the race keeps the invariant |
| GrantTables.ClosureIsReachability | api/authz/setup/grant_table.go:29-35 | the working-table iteration, which ends on every finite graph, computes exactly what some path reaches |
| GrantTables.DescentIsReachability | model/migrations/0002_types.sql:53-62 | a type descends from a slug exactly when a path of parents leads to it |
| GrantTables.AccessExactlyWhen | api/authz/setup/grant_table.go:28-122 | the function returns exactly the entities of the type the actor itself owns or that a grant it or a group above it holds covers |
| GrantTables.AccessIsMonotone | api/authz/setup/grant_table.go:28-57 | adding entities, grants or memberships takes no access away |
| GrantTables.UnheldGrantChangesNothing | api/authz/setup/grant_table.go:36-50 | a grant held by nobody on the actor's upward closure changes nothing |
| GrantTables.OwnershipIsNotInherited | api/authz/setup/grant_table.go:116-118 | without a held grant an actor sees exactly what it owns itself |
| GrantTables.WildcardOpensTheType | api/authz/setup/grant_table.go:112-114 | a held wildcard opens the whole type and no other |
| ThemeLoaders.LatestCallWins | gui/src/lib/theme-loader.ts:500-575 | the calls that change the page carry increasing tokens, and from the first acting step on the marked links are exactly the tracked one or none |
| ThemeLoaders.NoBareFrame | gui/src/lib/theme-loader.ts:437-465 | after every single mutation of a swap the new link is in head and everything not the loader's is in place, and a swap that replaces a tracked link never shows a head without one |
| ThemeLoaders.NoBareFrameInTrace | gui/src/lib/theme-loader.ts:437-465 | in every interleaving of calls, no head is without a link of the loader's while a tracked one is replaced |
| ThemeLoaders.SupersededChangesNothing | gui/src/lib/theme-loader.ts:530-563 | a superseded or failed call leaves the page alone; one that acts is the latest in flight and its outcome is tracked |
| ThemeLoaders.IntentExactlyWhen | gui/src/lib/theme-loader.ts:399-548 | a call skips exactly when it is strict and the contract version misses a clause or the range does not parse; otherwise it loads, unless fetching or resolving failed |
| ThemeLoaders.UnloadCancelsNothing | gui/src/lib/theme-loader.ts:571-575 | a load in flight still injects its link after an unload |
| ThemeLoaders.LoaderKeepsUnmarked | gui/src/lib/theme-loader.ts:448-465 | elements without the loader's mark are never touched |
| ThemeLoaders.LoadCleans | gui/src/lib/theme-loader.ts:448-465 | a swap leaves exactly the new link marked |
| ThemeLoaders.StyleLoader.SwapStyleLink | gui/src/lib/theme-loader.ts:448-465 | the mutations it makes of the head, in order, and the page after them |
| ThemeLoaders.StyleLoader.UnloadStylePackage | gui/src/lib/theme-loader.ts:571-575 | the mutations it makes of the head, and that nothing is tracked afterwards |
| ThemeLoaders.StyleLoader.Finish | gui/src/lib/theme-loader.ts:525-564 | what the rest of a call does to the page and returns, by its intent and whether it is the latest |
| SemverRanges.CompareOrders | gui/src/lib/semver-range.ts:35-39 | the comparison is the total precedence order of release versions |
| SemverRanges.OperatorsMean | gui/src/lib/semver-range.ts:110-124 | each comparator admits what it says in that order |
| SemverRanges.PlainClausesMean | gui/src/lib/semver-range.ts:75-86 | a plain clause admits what its operator does, the wildcard and the empty range everything |
| SemverRanges.ClauseOrderIsIrrelevant | gui/src/lib/semver-range.ts:104-125 | neither order nor repetition of clauses matters |
| SemverRanges.ConcatenationIntersects | gui/src/lib/semver-range.ts:104-125 | two ranges written together admit what both admit |
| SemverRanges.RangesAreConvex | gui/src/lib/semver-range.ts:100-125 | what a range admits has no gaps |
| SemverRanges.CaretExactlyWhen | gui/src/lib/semver-range.ts:50-64 | caret admits exactly the versions at or above the bound that agree up to its leftmost nonzero part |
| SemverRanges.TildeExactlyWhen | gui/src/lib/semver-range.ts:66-73 | tilde admits exactly patch-level changes |
| SemverRanges.TildeNarrowsCaretExactlyWhen | gui/src/lib/semver-range.ts:50-73 | a tilde is the narrower shorthand exactly when major and minor are not both zero |

## Left out

- AES, GCM and nonce generation: an ideal AEAD and arbitrary nonces stand for them; unforgeability plays no part.
- Blobs.SealBlob: does not model a failing randomness source, because the Go version in use ends the process instead of returning that error.
- A generated bootstrap or rotation key that is all zero: taken not to occur; the code does not check for it.
- Bootstrap.NewFromEnvOrGenerate: does not model wiping the decoded environment seed and the generated key, which are local to the call.
- Trimming of names and plaintexts: fields arrive trimmed, a plaintext is a byte sequence.
- Ciphers.Cipher.TryReload: serves one call at a time; reloads under the mutex are `Reloads`, and two calls racing past the rate limit are not modelled.
- Staleness.SealingKeyRetiredRecently: takes loads as succeeding, one call at a time and a rotation as one instant; failed or overlapping loads can hold an older snapshot longer.
- RotatingCiphers.AttemptWriteBack: others' commits arrive at two points, the swap and the re-read; the free interleaving is `WriteBack`, and `RotatingProtocol` connects the two.
- Isolation levels: transactions run at READ COMMITTED; a caller at a stricter level only fails more reads.
- The names in a row: an update writes back names it read earlier, and two updates can lose one's names; only the encrypted column is followed over interleavings.
- The key table's updated_at and created_at columns, and the listing of metadata.
- HTTP decoding, routing, response bodies, authorization, logging and observers: a refused input, an abort or nothing is what remains of them.
- KeyAdmin.Rotate: does not model decoding of the JSON body; its fields are inputs.
- The textual SQL of the access functions and the slug pattern that guards it.
- Deleting memberships or grants while the access query runs: it sees one state.
- Manifest fetching, shape and origin checks: a load's asynchronous part ends in a failure or a manifest.
- SemverRanges.SatisfiesEachClause: does not model parsing of version strings, the length cap, prerelease tags and integers past 2^53; it starts from parsed clauses.
- Other code that moves or removes the loader's own links.
- Creation of entity and legal-entity rows, resolvers, pagination, applications and service accounts.
