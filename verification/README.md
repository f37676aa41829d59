# Proofs about the auth protocols and data-layer algorithms

A Dafny model of the stateful parts of the media server: the login limiter and
what it gates, refresh-token rotation with reuse detection, the per-user session
quota, the JWT keystore, the device authorization grant, the table order of the
SQLite to Postgres copy, keyset paging of items, the bulk programme guide, the
SQL text transformers, the crash-safe restore, the federation audit queue, the
BlurHash packing and the redaction of connection strings.

`dafny verify dfyconfig.toml` checks everything.

## How it is written

Each component has a specification (datatypes and functions on values), the
component itself in the source's own form (classes with mutable fields, methods
with loops) proved against that specification, and lemmas about the
specification that hold for every input or every run.

| files | component |
|---|---|
| `Common`, `Division` | Option and map lookup, facts about division |
| `RateLimit`, `LockRelease`, `LoginGate`, `GateKinds` | login limiter, and how logins, profile PINs and refreshes share it |
| `SessionTable`, `SessionProtocol`, `RefreshRules`, `AuthServices` | sessions table, the protocol over it, who may refresh, the services that drive it |
| `SessionSafety`, `SessionQuota`, `EvictionOrder` | what runs of the protocol keep: tokens, quota, order of evictions |
| `KeyStore`, `KeyRuns` | signing keys: table, cache, and runs of signing, rotating and pruning |
| `UserCode`, `DeviceGrant` | device authorization grant (section 3.5 of RFC 8628) |
| `TableOrder`, `TableOrderProofs` | order of tables for the copy |
| `Ordering`, `KeysetPaging`, `KeysetPagingProofs` | filtering and stable sorting, item listing with a cursor |
| `BulkSchedule` | chunked programme guide |
| `Placeholders`, `QueryPieces` | `?` to `$k`, and the grammar it respects |
| `WordMap`, `AuditWhere`, `AuditStatements` | whole-word replacement, the audit-log filter and its two statements |
| `AuditReader`, `AuditLike`, `AuditListing` | a reader of that SQL text, and what the statements select, sort and cut out |
| `Restore`, `RestoreRuns` | restore on boot, stopped after any rename; runs of uploads and boots |
| `AuditQueue` | bounded queue between callers and one worker |
| `BlurHash` | base-83 packing and downsampling indices |
| `RedactDsn` | redaction of both connection-string forms |

Modelling choices that hold throughout: SQL tables are maps or sequences of rows
and each query is what its text says about them; a call is one atomic step, with
one clock reading; time is an integer that does not go back; new random tokens,
ids and secrets are parameters that a run requires to be new; a token's hash is
an injective constructor. The limiter's zero `lockedUntil` and a NULL column are
`None`.

## Where the code and its comments disagree

The model follows the code.

- `internal/auth/issuer.go:55-58` promises eviction in order of creation. The
  query it runs (`internal/db/queries/sessions.sql:46-54`) takes the least
  recently active session, then the least recently created. `EvictionIsFifoForIff`
  says exactly when a call's evictions follow creation all the same, and
  `EvictionIsNotFifo` is a run where the newer session is evicted.
- `internal/auth/device.go:149-203`: an approval at the very instant of expiry
  passes the check (`now` after `expires_at`) but not the guard of the UPDATE
  (`expires_at` later than `now`): it reports success and binds nobody.
  `ApprovalBindsIff` is the exact condition, `ApprovalAtExpiryIsLost` the input.
- `internal/auth/keystore.go:159-163` says that an overlap of zero or less cuts
  outstanding sessions at once. `Lookup` ignores the retirement time, so nothing
  is cut until the next prune: `OnlyPruneDropsKeys`. What the overlap does decide
  is which prunes may delete the key: `OverlapIsExact`.
- `internal/auth/keystore.go:184-187` says that a rotation retires every active
  key. It retires the primary, which is all of them exactly when no other key is
  active: `RotationRetiresAllIff`. A rotation whose `SetRetiredAt` fails after its
  `Insert` leaves two: `FailedRotationLeavesKey`.
- `internal/auth/device.go:325-327` says that whitespace is stripped from a typed
  code. Inside the code only spaces are: `CanonicalIsStrippedIff`.
- `internal/db/postgres.go:88-92` promises that the password is masked. In the
  key=value form only the first occurrence of `password=` is, and only up to a
  space: `PairsHidePasswordIff`, with the inputs `QuotedPasswordIsShown` and,
  since the text is also the end of `sslpassword=`,
  `PasswordShownAfterSslPassword`. In a URL it is masked before the host and
  nowhere else: `UrlHidesSecretIff`, with the input `UrlParameterIsShown`.
- Cursor paging over a nullable sort column can lose rows: `PagingIsCompleteIff`
  is the exact condition, `UndatedItemIsLost` the input.
- `internal/db/restore.go:61-65` gives backups a timestamp so that restores do not
  overwrite each other's. It has whole seconds: of two uploads restored within
  one, the second loses the first database (`SameSecondLosesDatabase`). Stamps
  need to differ across uploads only (`TimelyIsClear`).
- `internal/federation/audit.go:108-110` promises that Close flushes pending
  entries. Entries recorded after the worker's exit step are queued and never
  attempted, and those are the only ones: `AttemptedIffBeforeExit`, with the run
  `LateEntryIsLost`.

## Model

| member | source | states |
|---|---|---|
| RateLimit.LoginRateLimiter.IsLocked | internal/auth/ratelimit.go:64-87 | answers whether a lock is in force, and forgets the record exactly when its lock has run out or its window has closed |
| RateLimit.LoginRateLimiter.RecordFailure | internal/auth/ratelimit.go:91-108 | counts the failure in the running window or a new one, locks at the limit, and leaves every other key's record as it was |
| RateLimit.LoginRateLimiter.RecordSuccess | internal/auth/ratelimit.go:111-115 | forgets exactly that key |
| RateLimit.LoginRateLimiter.Cleanup | internal/auth/ratelimit.go:117-129 | the loop over the map removes exactly the records whose lock has run out or whose window has closed, and changes no other |
| RateLimit.FailuresAccumulate | internal/auth/ratelimit.go:91-108 | failures within one window are all counted together, and the lock comes exactly at the limit |
| RateLimit.LockLasts | internal/auth/ratelimit.go:64-108 | after the failure that sets a lock, the key is refused until the lock or the window of its first failure ends, whichever is first |
| LockRelease.ExpiredLockIsForgotten | internal/auth/ratelimit.go:64-129 | once a check or a cleanup has seen an expired lock, failures within one window are counted alone, from the first of them, and lock exactly from the limit on, even while the old window runs |
| LockRelease.CountStartsAnew | internal/auth/ratelimit.go:64-129 | so it is for a key locked by any failures within one window, from no record on |
| LockRelease.OneFailureLocksAgainIff | internal/auth/ratelimit.go:64-108 | while the old window runs, a check and then one failure lock the key again, if and only if the check comes no later than the instant the lock ends |
| RateLimit.FailuresAreBounded | internal/auth/ratelimit.go:64-108 | in every gated run from no record and without a success, F failures over a time T satisfy F*m <= (maxFails+1)*(T+m), m the smaller of window and lockout |
| RateLimit.CleanupIsUnobservable | internal/auth/ratelimit.go:64-129 | dropping every cleanup from a gated run changes no answer of the limiter |
| RateLimit.KeysAreIndependent | internal/auth/ratelimit.go:64-129 | the answers about one key are those of the run with the operations on other keys left out |
| LoginGate.Login | internal/auth/login_service.go:72-112 | refused exactly when a lock on either key is in force; logged in exactly on an open active account with the right password, which leaves no record of either key; an unknown user or a wrong password counts one failure on both, anything else none, and other keys are as before |
| LoginGate.GateThenReport | internal/auth/login_service.go:72-112 | an admitted call's check and report are a gated run, and a refused call counts nothing |
| LoginGate.OutcomeReachesKeys | internal/auth/login_service.go:72-173 | whatever the records were, a penalty adds one failure to the running record of its key or opens one, a success leaves none, and no other key changes |
| GateKinds.SwitchProfile | internal/auth/profile_service.go:75-145 | up to issuing: refused for a missing row, another family or a disabled target; then the PIN gate, and without a PIN the limiter is not touched |
| GateKinds.CheckPin | internal/auth/profile_service.go:118-137 | refused when a lock on either key is in force; a missing PIN and a wrong one both count one failure on both keys, the right one leaves no record of either, unless the profile id spells the address and the keys are one |
| LoginGate.CallsAreGated | internal/auth/login_service.go:72-112 | any sequence of gated calls makes a gated run of the limiter |
| LoginGate.PenaltiesAreBounded | internal/auth/login_service.go:72-112 | the amortised bound on failures holds for every sequence of Login, PIN and refresh calls on a key that is not cleared |
| GateKinds.FloodsStayApart | internal/auth/login_service.go:72-173 | leaving out all logins, all refreshes or all PIN attempts of any sequence changes no admission of the other kinds |
| GateKinds.AddressesStayApart | internal/auth/login_service.go:62-76 | nobody is locked out from another address, addresses having no at sign: leaving out everything but the logins from one address changes no admission of these |
| GateKinds.KeysAreTheirOwn | internal/auth/login_service.go:72-153 | every user at an address, address, token and profile has keys of its own |
| GateKinds.KeysDifferIff | internal/auth/login_service.go:72-173 | the two keys of a request differ, but for a PIN whose profile id spells the address |
| SessionTable.SessionRepository.RotateRefreshToken | internal/db/session_repository.go:236-247 | moves the current hash to the previous one, sets the new one and both times, and touches no other row |
| SessionTable.SessionRepository.GetByPreviousRefreshTokenHash | internal/db/session_repository.go:252-276 | finds the row that remembers the hash, if any; the empty hash finds none |
| SessionTable.SessionRepository.DeleteOldestByUser | internal/db/session_repository.go:205-216 | deletes one least-active row of the user, by last activity and then creation |
| SessionTable.LeastActiveExists | internal/db/queries/sessions.sql:46-54 | a user with rows has a least-active one |
| SessionProtocol.RunKeepsConsistent | internal/auth/login_service.go:149-261 | in every run each token belongs to one session for good and no two rows share a token |
| SessionSafety.OneAcceptableToken | internal/auth/login_service.go:149-261 | each live row has exactly one acceptable refresh token |
| SessionSafety.TokensAreSingleUse | internal/auth/login_service.go:149-261 | no run accepts the same refresh token twice |
| SessionSafety.ReuseRevokes | internal/auth/login_service.go:175-200 | presenting the previous token past the gate is refused, removes that session and no other, and no token of its lineage is accepted later |
| SessionSafety.ReuseReachesOneBack | internal/auth/login_service.go:149-261 | after two refreshes in a row the second token revokes the session when it returns, and the first is answered like an unknown one and revokes nothing |
| SessionSafety.RemovedLineageIsDead | internal/auth/session_service.go:82-166 | once a row is gone, in every later run none of its tokens is accepted and the session does not come back |
| SessionSafety.StepsEndExactly | internal/auth/session_service.go:82-166 | each step ends exactly the sessions it is meant to end, for good |
| SessionSafety.RefreshHandsOver | internal/auth/login_service.go:226-261 | an accepted refresh makes the new token the session's only acceptable one and the old one its remembered one |
| RefreshRules.RefreshIsAcceptedIff | internal/auth/login_service.go:149-261 | a refresh gets a new token for a user if and only if the gate is open, an unexpired row of that user holds the token, the account was found, is active and within its access window, and a signing key is ready |
| RefreshRules.RefreshIsRefusedIff | internal/auth/login_service.go:149-230 | and when each refusal is given: reused, unknown, expired, lookup failed, window closed, disabled, no key |
| RefreshRules.RefreshReachesRow | internal/auth/login_service.go:175-261 | an accepted refresh rotates the row that holds the token; reuse and expiry end their row; every other row stays as it is |
| RefreshRules.RefreshReachesKeys | internal/auth/login_service.go:149-220 | reused, unknown and expired tokens count a failure on both keys, a closed window and a disabled account on the address alone, a success leaves no record of either, and a refused gate or a failed lookup counts nothing |
| SessionQuota.EvictionCounts | internal/auth/issuer.go:64-78 | evicting the surplus leaves one place under the quota |
| SessionQuota.EvictionKeepsMostActive | internal/auth/issuer.go:64-78 | every kept session of the user is at least as active as every evicted one |
| SessionQuota.IssueRespectsQuota | internal/auth/issuer.go:59-119 | an issue brings even a user over the quota down to it |
| SessionQuota.IssuedTokenLastsIff | internal/auth/issuer.go:59-119 | a token just issued is accepted for an open account if and only if its lifetime is not over |
| SessionQuota.IssueKeepsMostActive | internal/auth/issuer.go:59-119 | an issue keeps the most active rows and leaves other users' rows alone |
| SessionQuota.QuotaHolds | internal/auth/issuer.go:59-119 | from a table within the quota, every reachable table has at most MaxSessionsPerUser sessions per user |
| EvictionOrder.EvictionIsFifoForIff | internal/auth/issuer.go:55-78 | a call that evicts n sessions is bound to take those created first, if and only if no older session is more active than a newer one that n evictions can reach while they spare the older |
| EvictionOrder.EvictionIsFifoIff | internal/auth/issuer.go:55-78 | so it is for every n, if and only if no session was active past a later login |
| EvictionOrder.EvictionIsNotFifo | internal/auth/issuer.go:55-78 | a run of two logins and a refresh after which the newer session is the one evicted |
| AuthServices.SessionIssuer.Issue | internal/auth/issuer.go:59-119 | the counting loop evicts exactly the surplus, one least-active row at a time, and the new table is the protocol's issue step, missing key included |
| AuthServices.LoginService.RefreshToken | internal/auth/login_service.go:149-261 | gate, exchange and report: accepted and refused exactly as said of the rows and the account, with the rows and both keys' records left as said there; one step of the protocol |
| AuthServices.LoginService.Exchange | internal/auth/login_service.go:175-261 | past the gate: accepted and refused exactly as said of the rows and the account, and each row left as said there |
| AuthServices.SessionService.Logout | internal/auth/session_service.go:150-166 | deletes the session that holds the token, and reports it when there was one |
| AuthServices.SessionService.RevokeSession | internal/auth/session_service.go:107-133 | deletes the session only for its own user, and says whether it did |
| AuthServices.SessionService.InvalidateUserSessions | internal/auth/session_service.go:82-93 | removes every session of the user and no other, as ResetPassword does |
| KeyStore.SigningKeyRepository.SetRetiredAt | internal/db/signing_key_repository.go:112-132 | sets the retirement of that key alone, and says whether the key exists |
| KeyStore.SigningKeyRepository.DeleteRetiredBefore | internal/db/signing_key_repository.go:139-156 | deletes exactly the keys retired before the cutoff, and counts them |
| KeyStore.ListNewestFirst | internal/db/queries/signing_keys.sql:16-25 | lists every row once, newest first |
| KeyStore.FirstIsNewest | internal/auth/keystore.go:100-131 | the head of such a list is a newest unretired key |
| KeyStore.MapOfLists | internal/auth/keystore.go:100-131 | the map built from the list is the listed rows |
| KeyStore.KeyStore.Open | internal/auth/keystore.go:49-58 | gives a store whose cache mirrors the table and has a primary, and fails exactly when no key is unretired |
| KeyStore.KeyStore.Bootstrap | internal/auth/keystore.go:68-95 | inserts a first key, with the seed or else the random secret, only into an empty table, and otherwise answers a newest key |
| KeyStore.KeyStore.Reload | internal/auth/keystore.go:100-131 | the cache becomes exactly the table split into unretired and retired keys, the primary a newest unretired one |
| KeyStore.CacheSplitsTable | internal/auth/keystore.go:100-131 | the two parts of the cache share no key and together are the table, split by whether a key has a retirement time |
| KeyStore.KeyStore.Find | internal/auth/keystore.go:147-157 | finds exactly the keys of the table, retired ones too |
| KeyStore.KeyStore.Rotate | internal/auth/keystore.go:167-203 | inserts the new key, retires the previous primary at the end of the overlap and rebuilds the cache; when the retirement fails, the new key stays in the table and the cache is as it was |
| KeyStore.MintedKeySigns | internal/auth/keystore.go:100-203 | on any table, leftover unretired keys included, a key minted later than all others is the primary after its rotation |
| KeyStore.KeyStore.Prune | internal/auth/keystore.go:206-217 | deletes the keys retired before the cutoff from table and cache |
| KeyRuns.StepKeepsOneActive | internal/auth/keystore.go:68-217 | after bootstrap every step leaves exactly one unretired key, the primary |
| KeyRuns.CacheIsDetermined | internal/auth/keystore.go:100-131 | with one unretired key a cache that mirrors the table has that key as its only active one and as its primary |
| KeyRuns.TokensResolveUntilExpiry | internal/auth/keystore.go:147-217 | in every run whose rotations overlap by the token lifetime or more and whose prunes do not look ahead, every unexpired token finds its secret |
| KeyRuns.TokensResolveFromBootstrap | internal/auth/keystore.go:68-217 | so it is in every such run from a bootstrapped table |
| KeyRuns.OverlapIsExact | internal/auth/keystore.go:159-217 | every token signed with the primary up to its rotation survives every prune until the token expires, if and only if the overlap is at least the token lifetime |
| KeyRuns.RotationRetiresAllIff | internal/auth/keystore.go:184-197 | on any table a rotation retires every key that was active, if and only if the primary was the only one |
| KeyRuns.FailedRotationLeavesKey | internal/auth/keystore.go:167-197 | after a rotation whose retirement failed two keys are unretired, and the next rotation leaves one of them so |
| KeyRuns.OnlyPruneDropsKeys | internal/auth/keystore.go:159-217 | a rotation never takes a key away from lookup, whatever the overlap |
| UserCode.CanonicalIsStrippedIff | internal/auth/device.go:325-335 | a typed code canonicalises to its raised characters without dashes and blanks, if and only if every blank inside it is a space |
| UserCode.DisplayedCodeComesBack | internal/auth/device.go:328-369 | a generated code, displayed, then typed in any case with any blanks around it, canonicalises to the stored code |
| UserCode.SameCodeIff | internal/auth/device.go:350-360 | two draws give the same code if and only if their bytes agree modulo the size of the alphabet |
| DeviceGrant.RunKeepsSound | internal/auth/device.go:149-314 | in every run a device code yields at most one token, for the first user bound and not after its expiry |
| DeviceGrant.StatusOnlyAdvances | internal/auth/device.go:218-236 | between any two inspections the status does not move back along pending, approved, consumed, expired |
| DeviceGrant.PollsKeepTheirDistance | internal/auth/device.go:253-314 | a poll past the slow-down check comes at least MinPollGap after every earlier recorded poll of the code |
| DeviceGrant.ApprovalBindsIff | internal/auth/device.go:149-203 | an approval that reports success has bound the user, if and only if the code was already bound or had not reached its expiry |
| DeviceGrant.ApprovalAtExpiryIsLost | internal/auth/device.go:149-203 | a fresh code approved at the instant it expires reports success and stays unbound |
| DeviceGrant.ApprovedIff | internal/auth/device.go:149-203 | an approval goes through if and only if the code is there, in time and unbound and the account is open |
| DeviceGrant.ApprovalTouchesOne | internal/auth/device.go:149-203 | it binds the row of that user code and changes no other |
| DeviceGrant.TokenIff | internal/auth/device.go:253-314 | a poll gets a token for a user if and only if the code is unspent, in time and not polled within four seconds, is bound to that user, whose account is open, and a session can be issued |
| DeviceGrant.NoTokenIff | internal/auth/device.go:253-314 | and when each refusal is given |
| DeviceGrant.StatusForetellsPoll | internal/auth/device.go:218-314 | for an open account and a device that keeps its distance, the inspected status says what a poll at the same instant would answer |
| DeviceGrant.SweepDropsIff | internal/db/queries/device_codes.sql:37-40 | a sweep drops exactly the codes that expired before its cutoff or are spent |
| DeviceGrant.DeviceCodeRepository.Approve | internal/db/device_code_repository.go:127-144 | binds the pending unexpired code with that user code and nothing else |
| DeviceGrant.DeviceCodeRepository.Consume | internal/db/device_code_repository.go:146-159 | marks that code consumed and nothing else |
| DeviceGrant.DeviceCodeService.StartDevice | internal/auth/device.go:97-136 | inserts a pending row, or none when the user code is taken |
| DeviceGrant.DeviceCodeService.ApproveDevice | internal/auth/device.go:149-203 | every branch gives the protocol's reply and rows |
| DeviceGrant.DeviceCodeService.InspectDevice | internal/auth/device.go:218-236 | reports the status of the row without changing it |
| DeviceGrant.DeviceCodeService.PollDevice | internal/auth/device.go:253-314 | every branch gives the protocol's reply and rows, the recorded poll time before the slow-down answer included |
| TableOrder.EnumerateTargetTables | internal/db/migrator.go:274-326 | the loops over in-degrees and child lists compute the order: peel the first unblocked table while there is one, then append the rest |
| TableOrder.Release | internal/db/migrator.go:300-312 | emitting a table lowers each child's in-degree once per edge |
| TableOrder.Graph | internal/db/migrator.go:274-292 | the edge loop counts every non-self edge, duplicates included |
| TableOrderProofs.OrderIsPermutation | internal/db/migrator.go:274-326 | every table comes out exactly once |
| TableOrderProofs.TailIsExactlyTheBlocked | internal/db/migrator.go:313-326 | the appended tail is exactly the tables on or downstream of a cycle |
| TableOrderProofs.TailIsByName | internal/db/migrator.go:314-326 | the blocked tables come out last, by name |
| TableOrderProofs.ParentsComeFirst | internal/db/migrator.go:274-326 | every other table comes after all its parents, duplicate and self edges included |
| TableOrderProofs.OrderIsTopological | internal/db/migrator.go:274-326 | without cycles the order is topological |
| TableOrderProofs.OrderIsLeast | internal/db/migrator.go:294-312 | without cycles, where another topological order first differs, it has a later name: the order is the alphabetically least |
| Ordering.SortSorts | internal/db/item_repository.go:255-283 | what ORDER BY gives is sorted and a permutation |
| Ordering.KeepSort | internal/db/item_repository.go:158-283 | filtering before or after sorting is the same |
| KeysetPaging.ItemRepository.List | internal/db/item_repository.go:157-300 | the page has the rows the conditions keep in the order asked for, by the named column and direction, from the cursor row or the offset on, and the total counts all matching rows on a first page and is 0 with a cursor |
| KeysetPaging.PageIsAsAsked | internal/db/item_repository.go:158-283 | every two rows of a page stand by added_at, year or episode_number when that is the name asked for, else by title, descending for "desc" and ascending otherwise, ties by id, NULLs where the driver puts them |
| KeysetPaging.PageSizes | internal/db/item_repository.go:158-163 | 20 rows when no limit is given, 100 at most, else as many as asked for, as far as there are |
| KeysetPagingProofs.CursorIsOffset | internal/db/item_repository.go:158-283 | the page after row i is the page at offset i+1 of the full listing, for every limit, ascending or descending, when the row has a sort value and no NULLs come after it |
| KeysetPagingProofs.PagingIsTheListing | internal/db/item_repository.go:158-283 | chained pages are the first rows of the sorted filtered listing, none lost or repeated, and with enough requests all of it |
| KeysetPagingProofs.PagesGive | internal/db/item_repository.go:158-283 | what all pages together give on any listing, NULL sort values included |
| KeysetPagingProofs.PagingIsCompleteIff | internal/db/item_repository.go:158-283 | paging returns the whole listing if and only if it fits in a page, has no NULL sort value, or its NULLs come first and are fewer than a page |
| KeysetPagingProofs.UndatedItemIsLost | internal/db/item_repository.go:158-283 | two items by ascending year in Postgres, one a page: the item without a year is on the listing and on no page |
| KeysetPagingProofs.LostCursorRestarts | internal/db/item_repository.go:158-210 | a cursor whose row is gone reads the first page again |
| BulkSchedule.EpgRepository.Schedule | internal/db/epg_repository.go:149-190 | the programmes of the channel that overlap the range, by start |
| BulkSchedule.ScheduleIsWhatAirs | internal/db/epg_repository.go:149-190 | for a range that is not empty: the programmes of the channel that are on air at some instant of it, by start |
| BulkSchedule.EpgRepository.BulkSchedule | internal/db/epg_repository.go:196-216 | the chunk loop returns the guide of the requested channels, asking for the chunks of the deduplicated list |
| BulkSchedule.EpgRepository.BulkScheduleChunk | internal/db/epg_repository.go:218-264 | one query appends its rows per channel to the guide |
| BulkSchedule.DedupeKeepsSet | internal/db/epg_repository.go:331-345 | deduplication keeps the same ids, each once |
| BulkSchedule.ChunksPartition | internal/db/epg_repository.go:196-216 | chunks have at most 500 ids, none is empty, and together they are the deduplicated list |
| BulkSchedule.GuideIsPerChannel | internal/db/epg_repository.go:149-265 | the guide maps each requested channel with programmes to exactly what Schedule returns for it, and has no other key |
| Placeholders.Itoa | internal/db/dialect.go:106-118 | writes the decimal digits, and fails on its buffer from 10000 on |
| Placeholders.RewritePlaceholders | internal/db/dialect.go:58-102 | for Postgres the scan gives the rewritten query, with an index failure exactly when there are more than 9999 parameters; other drivers keep the query |
| Placeholders.DecimalReadsBack | internal/db/dialect.go:106-118 | marker numbers read back |
| Placeholders.MarkersRestore | internal/db/dialect.go:58-102 | turning the markers back into question marks restores the query |
| Placeholders.KthMarkIsNumberK | internal/db/dialect.go:58-102 | the k-th parameter becomes `$k` between the renderings of what is before and after |
| Placeholders.RewrittenHasNoMarks | internal/db/dialect.go:58-102 | the rewritten query has no parameter left |
| Placeholders.RewritingIsIdempotent | internal/db/dialect.go:58-102 | rewriting the output changes nothing |
| QueryPieces.RewritesPieces | internal/db/dialect.go:58-102 | on every text of code, literals, comments and parameters, the last literal or comment possibly cut off, everything but the parameters comes out unchanged and these numbered |
| QueryPieces.EveryQueryIsRewrittenByPieces | internal/db/dialect.go:58-102 | every query is such a text, so the rewriter numbers the parameters of every query and changes nothing else |
| WordMap.ReplaceWord | internal/db/audit_log_repository.go:196-218 | the greedy scan, which jumps past rejected matches, replaces exactly the whole words |
| WordMap.RejectedMatch | internal/db/audit_log_repository.go:196-218 | no whole word begins inside a rejected match |
| AuditWhere.QualifyColumns | internal/db/audit_log_repository.go:184-194 | passes of the scanner one after another equal one simultaneous map of the columns |
| AuditWhere.QualifyAuditWhere | internal/db/audit_log_repository.go:184-194 | the seven passes prefix exactly the whole-word column names |
| AuditWhere.ScansCompose | internal/db/audit_log_repository.go:184-218 | two word maps in turn are their composition |
| AuditWhere.QualifyingIsIdempotent | internal/db/audit_log_repository.go:184-225 | a qualified clause qualifies to itself, because the dot is part of an identifier |
| AuditWhere.BuildAuditWhere | internal/db/audit_log_repository.go:228-272 | the joined text and the argument list of the conditions that the filter sets; what they select is CountSelects and ListSelects |
| AuditWhere.JoinBalances | internal/db/audit_log_repository.go:228-272 | the joined clauses ask for as many parameters as they bring arguments |
| AuditWhere.Assemble | internal/db/audit_log_repository.go:101-150 | the two statements and their argument lists for any fixed text of the right shape; a page of 50 rows when no limit is given, 500 at most, and no negative offset |
| AuditStatements.StatementsAreFixed | internal/db/audit_log_repository.go:115-145 | the text of the two statements has that shape |
| AuditStatements.QueryLinesUp | internal/db/audit_log_repository.go:101-150 | for every filter both statements have as many parameters as they get arguments, and fewer than the rewriter can number |
| AuditReader.CountSelects | internal/db/audit_log_repository.go:112-272 | read back, the text of the count with its arguments keeps a row if and only if the row meets every field of the filter that is set, whatever LIKE means to the engine |
| AuditReader.ListSelects | internal/db/audit_log_repository.go:126-225 | so does the text of the listing, on its qualified columns |
| AuditListing.ListingReads | internal/db/audit_log_repository.go:101-150 | read back, what follows the joins of the listing keeps exactly those rows, sorts them by time and id, both descending, and cuts out the page of the clamped limit and offset |
| AuditLike.AuditSearchFinds | internal/db/audit_log_repository.go:228-272 | with LIKE written out, and none of its wildcards in the pattern or the searched text, a row meets the filter, and so is kept, if and only if it has the exact type or one that begins with the pattern, the actor, a time within both bounds, and the text in one of four columns |
| AuditLike.PatternFinds | internal/db/audit_log_repository.go:232-248 | an event-type pattern without LIKE's own wildcards finds the types that begin as it says, its stars standing for any text |
| AuditLike.SearchIsExactIff | internal/db/audit_log_repository.go:260-268 | a search finds the values with its text and no others, if and only if the text has no percent sign and no underscore |
| AuditWhere.CountLinesUp | internal/db/audit_log_repository.go:113-124 | the count lines up whatever its quiet head |
| AuditWhere.ListLinesUp | internal/db/audit_log_repository.go:126-150 | the listing lines up after qualification, whatever its quiet select list, literal and ordering |
| Restore.FileSystem.VerifySQLiteHeader | internal/db/restore.go:97-113 | accepts exactly the files that begin with the SQLite magic |
| Restore.FileSystem.ApplyPendingRestoreIfAny | internal/db/restore.go:36-90 | the checks and the loop of renames, stopped after any of them, leave the files the boot function says |
| Restore.BootEffect | internal/db/restore.go:36-90 | what one boot, stopped anywhere, leaves at each path, whatever its stamp |
| RestoreRuns.RestoreIsCrashSafe | internal/db/restore.go:36-90 | over any boots, each stopped anywhere and with any stamps: the upload is at the pending or the live path, every old live file is kept under its own or a backup name, and no old wal or shm stays beside the installed database |
| RestoreRuns.EarlierBackupsAreKept | internal/db/restore.go:61-78 | backups from before the upload are kept too, when no boot has the stamp of one whose suffix has a live file |
| RestoreRuns.RestoreFinishes | internal/db/restore.go:36-90 | wherever earlier boots were stopped, a boot that makes all its renames installs the upload, and later boots change nothing |
| RestoreRuns.BadUploadChangesNothing | internal/db/restore.go:36-60 | while the pending file is missing or invalid, no boot moves a file |
| Restore.BackupsSurviveIff | internal/db/restore.go:61-78 | a boot, stopped anywhere, keeps every earlier backup if and only if no file it gets to move meets a backup of its stamp with other contents |
| RestoreRuns.FilesAreKept | internal/db/restore.go:36-90 | in every run of uploads and boots where no rename lands on a backup, every file that is ever live or a backup stays one of the two |
| RestoreRuns.TimelyIsClear | internal/db/restore.go:61-78 | no rename lands on a backup when no boot uses a stamp from before the last upload; boots after the same upload may share theirs |
| RestoreRuns.SameSecondLosesDatabase | internal/db/restore.go:61-78 | two uploads restored under one stamp: the first database is at no path any more |
| AuditQueue.StepConserves | internal/federation/audit.go:94-181 | each step of a caller or the worker keeps the accepted entries equal to attempted, batch and queue in that order |
| AuditQueue.RunConserves | internal/federation/audit.go:94-181 | under every interleaving recorded = attempted + dropped + queued + in the batch, attempts follow queue order, and queue and batch stay within 256 |
| AuditQueue.CloseDrains | internal/federation/audit.go:111-168 | when the worker has exited, every entry accepted before Close has been attempted exactly once |
| AuditQueue.AttemptedIffBeforeExit | internal/federation/audit.go:94-168 | in every run where the worker exits, the attempted entries are exactly those accepted before its exit step, after Close or not |
| AuditQueue.LateEntryIsLost | internal/federation/audit.go:94-168 | a run where an entry recorded after the exit is accepted and, whatever follows, never attempted |
| AuditQueue.WorkerStepsAreBounded | internal/federation/audit.go:124-181 | in every run the worker's steps are bounded by the work there was, the entries recorded and the ticks |
| AuditQueue.ClosedWorkerMoves | internal/federation/audit.go:124-168 | after Close the worker always has a step until it has exited |
| AuditQueue.Auditor.Send | internal/federation/audit.go:94-106 | a non-blocking send: the entry goes to the end of the queue, or is dropped when 256 are waiting |
| AuditQueue.Auditor.HandleEntry | internal/federation/audit.go:136-152 | the batch loop attempts everything that was queued, in order, as the corresponding worker steps of the state machine do |
| AuditQueue.Auditor.Flush | internal/federation/audit.go:155-164 | the drain loop attempts everything that was queued, as the steps of a flush do |
| BlurHash.AlphabetReadsBack | internal/blurhash/blurhash.go:10 | the alphabet's characters are the 83 digits in order |
| BlurHash.EncodeBase83 | internal/blurhash/blurhash.go:133-148 | fills the buffer with the low digits, most significant first |
| BlurHash.WrittenReadsBack | internal/blurhash/blurhash.go:133-148 | the digits read back as the value, up to what does not fit |
| BlurHash.PackedValuesFit | internal/blurhash/blurhash.go:100-114 | DC and AC values fit their fields and unpack to the clamped components |
| BlurHash.SizeReadsBackIff | internal/blurhash/blurhash.go:52-54 | one digit gives the size back if and only if x is at most 9 and the flag below 83 |
| BlurHash.Encode | internal/blurhash/blurhash.go:52-83 | writes flag, maximum, DC and every AC triple in order |
| BlurHash.HashDecodesIff | internal/blurhash/blurhash.go:52-148 | the hash has 4 + 2xy characters, and a reference decoder recovers size, maximum, DC and all AC triples if and only if the size fits |
| BlurHash.SamplingInBounds | internal/blurhash/blurhash.go:151-165 | sampled indices stay inside a non-empty image and do not go backwards |
| BlurHash.SampledIsUnder | internal/blurhash/blurhash.go:151-165 | the sampled pixel is the one under the target pixel, and an image of the same size is copied |
| BlurHash.Downsample | internal/blurhash/blurhash.go:151-165 | each target pixel is the sampled source pixel |
| RedactDsn.IndexOf | internal/db/postgres.go:135-142 | the first occurrence, or -1 when there is none |
| RedactDsn.LastIndex | internal/db/postgres.go:144-152 | the last occurrence, or -1 when there is none |
| RedactDsn.RedactDSN | internal/db/postgres.go:94-126 | both branches compute the redacted string, every slice in range |
| RedactDsn.UrlShowsBody | internal/db/postgres.go:96-107 | what a URL shows, on every input |
| RedactDsn.UrlShows | internal/db/postgres.go:96-107 | a URL with credentials shows the user up to its first colon and what follows the last at sign |
| RedactDsn.UrlHidesPassword | internal/db/postgres.go:96-107 | two URLs that differ only in the password before the host show the same, whatever signs user, password and tail hold |
| RedactDsn.UrlHidesSecretIff | internal/db/postgres.go:96-107 | a secret anywhere in a URL is hidden when a colon precedes it and an at sign follows; otherwise two different secrets without those signs are told apart |
| RedactDsn.UrlParameterIsShown | internal/db/postgres.go:96-107 | a password among the parameters of a URL without user information is shown |
| RedactDsn.UrlKeepsTheRestIff | internal/db/postgres.go:96-107 | everything but the password is kept if and only if the user has no colon and the tail no at sign |
| RedactDsn.RedactionIsIdempotent | internal/db/postgres.go:94-126 | redacting twice is redacting once, on every input of either form |
| RedactDsn.FirstValueMasked | internal/db/postgres.go:109-126 | the first key's value is masked up to its first space and no further |
| RedactDsn.PairsHidePasswordIff | internal/db/postgres.go:109-126 | two key=value strings that differ in a password show the same, on every input, if and only if the values agree from their first space on or, behind an earlier key whose value a space ends, are the same |
| RedactDsn.SpacelessPasswordHiddenIff | internal/db/postgres.go:109-126 | so a password without spaces is hidden if and only if no such earlier key stands before it |
| RedactDsn.QuotedPasswordIsShown | internal/db/postgres.go:109-126 | a quoted password is shown from its first space on |
| RedactDsn.PasswordShownAfterSslPassword | internal/db/postgres.go:109-126 | with sslpassword set first, any password that follows is shown |

## Left out

- GateKinds.CheckPin: for a profile id that spells the address its two keys are one, and only the limiter calls are stated, as such ids do not occur.
- Interleaving of two calls on one row: each call is one step, so single use and one token per code are claims about serialised calls. In the source the read and the update are separate statements.
- Repository errors other than not found and a failed key retirement: a run's database calls succeed. The eviction loop's break on an error is not modelled.
- The select lists and joins of the audit statements are text that is only counted for placeholders; LIKE has no escape character here.
- The SQL engines, generated code and migrations: a query is what its text says of a table of rows; ORDER BY is a stable sort, so the order of equal keys is the insertion order.
- Item ids and sort keys are integers, and table names are compared byte by byte; collation is not part of this model.
- Cryptography: bcrypt, HMAC, SHA-256 and random bytes are new values and an injective hash; a signature is the key's secret inside the token.
- User accounts: deleting a user and the sessions, keys or codes that go with it.
- Durations and times that overflow, and the monotonic clock: times are unbounded integers.
- Several clock readings in one call: they are one reading.
- The keystore of several processes over one table: one store writes and reads it. `Snapshot` and the counters are copies of fields.
- Floating point in BlurHash: colour conversion, cosine sums and rounding; what they round to enters as integers.
- `filterOut`, the row copy, type conversion and sequence repair of the migration.
- Device names, trimmed and cut for display; Unicode in user codes: the model raises and trims ASCII.
- Errors of `stat` other than a missing file, and of the renames themselves, during a restore: a failed rename is a stop.
- The five-second throttle of the drop log, the nil auditor and entries' timestamps.
- Events, logging, metrics, HTTP handlers and middleware.
