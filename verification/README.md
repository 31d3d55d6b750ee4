# A Dafny model of Signet

Signet blind-signs vote tokens, once per `(group, participant, version)`, and
keeps a deduplication ledger of credentials with the PRF keys behind it. Its
guarantees are about state over whole runs: many request threads, a keygen
worker pool and several processes share one SQLite database, any call can fail
and any thread can die. This project models that state and proves what holds
in every run.

`dafny verify dfyconfig.toml` checks everything. One step of a concurrent model
is one mutex-guarded database call, one `inflight` lock section, one permit
operation or one clock read; any number of threads interleave, and database
failures, signing failures, failed rollbacks and crashes are steps like any
other; the wall clock may be set to anything at any time, and only the rate
ceiling asks that it does not go back. Tables and limiters are also given as classes whose methods work as the
source's do, each proved against the function that the state machines use.

| file | part of the source |
|---|---|
| `Bytes.dfy`, `Sets.dfy`, `Wrappers.dfy` | byte strings, counting, options |
| `Framing.dfy` | `LP` framing of PRF inputs (`src/prf.rs`) |
| `Keystore.dfy`, `IdealAead.dfy` | sealed blobs and their associated data (`src/keystore.rs`) |
| `KeyRows.dfy` | `group_keys`: insert, reseal, rotate (`src/db.rs`) |
| `KeygenPool.dfy`, `KeygenAnswers.dfy` | keygen worker pool, waiting requests, rotations; what is answered when, and that it is (`src/keygen.rs`) |
| `IssuanceLedger.dfy`, `Issuance.dfy`, `SignTraces.dfy` | the issuance ledger, the `/sign` protocol and the steps a signature is made of (`src/db.rs`, `src/handlers.rs`) |
| `RateCeiling.dfy`, `CeilingRuns.dfy` | the ledger-based ceilings under concurrency, and the runs that show how far they reach (`src/ratelimit.rs`) |
| `KeyRateLimit.dfy`, `LimiterRuns.dfy`, `LimiterOrder.dfy` | the in-memory sliding-window limiter, histories that show its limits, and when the order of arrival matters (`src/ratelimit.rs`) |
| `DedupLedger.dfy`, `DedupBook.dfy`, `Disclosure.dfy` | dedup ledger, its meaning, disclosed nullifiers (`src/db.rs`, `src/handlers.rs`, `src/prf.rs`) |
| `ServiceKeys.dfy`, `KeyLifecycle.dfy`, `ServiceTraces.dfy` | write-once service keys, init and boot policy, and how each call ends (`src/dedup.rs`) |
| `Identity.dfy` | identity classification and the PRF gate (`src/identity.rs`, `src/handlers.rs`) |

Assumptions. Text is held as its UTF-8 bytes (pins as characters, because they
are trimmed). AES-GCM, HKDF, HMAC, base64url and the VOPRF key derivation are
function-valued parameters; theorems that need it ask for an ideal AEAD
(decryption inverts encryption, a ciphertext authenticates under one key,
nonce and associated data) or for a collision-free HMAC and a lossless text
encoding, and `IdealAead.IdealAeadExists` and `Disclosure.CollisionFreeExists`
show that these can be met. SQLite contributes serialised calls, atomic
transactions, unique indexes and non-reused AUTOINCREMENT ids. Seeds, nonces,
refs, clocks and the outcomes of keygen and signing are inputs.

## What turned out different from the documentation

- The issuance ceilings are documented as hard caps (`README.md`, the module
  comment of `src/ratelimit.rs`). The counts are separate calls before the
  reservation, so with a clock that does not go back the true ceiling is
  `max - 1 + K` with `K` threads between count and reservation, `max` for
  `K = 1`. `RateCeiling.FreshCeiling` is the bound; `CeilingRuns.CeilingIsMet`
  reaches it for every `K`, for the participant ceiling whenever it is at most
  the global one, and for the global ceiling, whenever both are at least one,
  with any distinct requests
  (`CeilingRuns.EnoughSlots`: there are ten to the 256th valid ones).
- The ceilings read the wall clock, which can be set back.
  `CeilingRuns.EveryStepBackBreaksTheCeiling` goes over the bound for every
  step back, however small, and `CeilingRuns.LongStepsBackLeaveNoCeiling` by
  any amount when the clock goes back by more than a window. The first of these
  runs never reads a clock below the lower value minus the window, so it is
  real for every step back to a time at least one window after the epoch; no
  such step can be admitted by the hypothesis of `RateCeiling.CeilingHolds`.
- The permit semaphore is documented to cap concurrent keygens. A rotate future
  that is dropped while its blocking task runs returns its permit early:
  `KeygenPool.CancellationBreaksTheCap` reaches any number of unfinished
  keygens for every permit count, `KeygenPool.PermitAccount` says exactly when
  the cap is exceeded, and `KeygenPool.CapHoldsWithoutCancellation` that it
  holds otherwise. What is counted are tasks handed to the blocking pool; that
  pool's own thread limit is not part of this model.
- The comment at `src/ratelimit.rs:94-96` says that empty per-identity buckets
  are pruned. `check_at` removes no map entry: `KeyRateLimit.KeysAreExact` says
  which identities have a bucket after any history, and
  `LimiterRuns.BucketsOutliveTheirStamps` gives, for any ceilings, histories
  with any number of buckets whose stamps have all expired.
- `Instant::now()` is read before the limiter's lock, so requests can be
  decided out of order. Call a request timely if it is no older than the latest
  one before it, or if that one came before a whole window had passed. On timely
  sequences the windows are bounded (`KeyRateLimit.WindowsAreBounded`) and
  pruning changes nothing (`KeyRateLimit.PrunedRefinesReference`). For every
  other pair of times, however close, one such request after a history in order
  breaks a window (`LimiterRuns.OneStaleRequestBreaksTheWindow`) and is decided
  differently (`LimiterRuns.StaleDecisionDiffers`), and several break it by any
  amount (`LimiterRuns.StaleGrantsKnowNoCeiling`). Only ceilings that leave at
  most one grant a window are exempt, and those are exempt in every order:
  `LimiterOrder.OrderMatters` and `LimiterOrder.PruningMatters` are the exact
  conditions.

## Model

| member | source | states |
|---|---|---|
| Issuance.AtMostOneSignature | src/handlers.rs:223-297 | in every reachable state of every interleaving with failures, crashes and clock changes, two signatures never share a (group, participant, version), and none is for a slot an earlier process used |
| Issuance.SignedRowIsNeverDeleted | src/handlers.rs:270-284 | once a signature exists its row, slot and timestamp are in the ledger in every later state |
| Issuance.RollbackRemovesOnlyItsOwn | src/handlers.rs:275-284 | the only way any row disappears is a successful rollback by the very thread whose earlier step inserted it; the slot is then free again and no signature was made under it |
| Issuance.HeldMeansInserted | src/handlers.rs:238-248 | a reservation held by a thread is a row that thread inserted earlier in the run, for its own slot, stamped with the clock of that moment |
| Issuance.LedgerCountsSignatures | src/handlers.rs:238-297 | in every reachable state the ledger has one row more than at the start for each signature, each orphaned reservation and each request in progress, and no other |
| Issuance.QuietLedgerCountsSignatures | src/handlers.rs:238-297 | so without crashes and failed rollbacks a quiescent ledger has grown by exactly one row per signature |
| Issuance.RunInv | src/handlers.rs:223-297 | the inductive invariant of the protocol holds in every reachable state: held, signed and orphaned rows are disjoint and account for every new row |
| Issuance.StepChanges | src/handlers.rs:223-297 | every step either leaves reservations alone or takes, signs, frees or loses exactly one of its own thread |
| SignTraces.NextSteps | src/handlers.rs:223-297 | after each own step of a thread, the steps open to it are exactly those that may follow its outcome: sign after a loaded key, roll back after a failed load or signature, nothing after a refusal |
| SignTraces.SignatureIsItsSteps | src/handlers.rs:238-289 | a signature for a slot under a row exists if and only if its thread arrived for that slot, inserted that row, then loaded the key, then signed |
| SignTraces.FailedThreadNeverSigns | src/handlers.rs:270-284 | a thread whose key load or signing failed has no signature at any time |
| SignTraces.SignedThreadHasSignature | src/handlers.rs:270-297 | a thread counts as having signed only with a signature of its own, for its slot and row |
| SignTraces.EachStepOnce | src/handlers.rs:223-297 | a thread does each step of the protocol at most once |
| SignTraces.CountsFromItsClock | src/ratelimit.rs:66-80 | both counts of a thread start one window before the clock it read once |
| IssuanceLedger.IssuanceTable.ReserveIssuance | src/db.rs:298-319 | record-first insert: refused exactly when the slot is taken, otherwise a row under a fresh id; uniqueness kept |
| IssuanceLedger.IssuanceTable.DeleteIssuance | src/db.rs:324-329 | deletes the row with that id and no other |
| IssuanceLedger.SaturationIsExact | src/db.rs:125-133 | saturating the count to 32 bits never changes whether a ceiling denies |
| IssuanceLedger.IssuanceTable.Check | src/ratelimit.rs:66-80 | denies globally exactly at the global ceiling, allows exactly below both |
| IssuanceLedger.SignBlocking | src/handlers.rs:223-297 | run alone: which answer is given exactly when; one new row for a signature, the one reservation left behind by a failed rollback, and no change otherwise |
| RateCeiling.CeilingHolds | src/ratelimit.rs:60-80 | over any starting ledger, globally and per participant: recent rows plus racing threads, and every inclusive window of the configured length, stay within the larger of max - 1 + k and what was there at the start, on runs where at most k threads race and the clock does not go back |
| RateCeiling.FreshCeiling | src/ratelimit.rs:60-80 | from an empty ledger and with a clock that does not go back, that bound is max - 1 + k, the configured max for k = 1 |
| CeilingRuns.CeilingIsMet | src/ratelimit.rs:60-80 | for every k, every limits under which the ceiling decides and any distinct requests that press on it, some run with at most k racing threads and a forward clock puts max - 1 + k of them into one window, so no smaller bound is true |
| CeilingRuns.EnoughSlots | src/handlers.rs:126-139 | ten to the width distinct requests with ids of 1 to 256 bytes press on a ceiling, for one participant or for as many participants |
| CeilingRuns.EveryStepBackBreaksTheCeiling | src/ratelimit.rs:34-50 | for every step of the clock from one value back to a lower one and every k, a run whose clock goes back only in that step puts max + k requests into one window |
| CeilingRuns.LongStepsBackLeaveNoCeiling | src/ratelimit.rs:34-50 | going back by more than a window, with one racing thread, any number of distinct requests is reserved at one instant |
| RateCeiling.PassSawRoom | src/ratelimit.rs:66-80 | a thread let through saw fewer than max rows over a window at least as long as the current one |
| RateCeiling.ReserveTrades | src/db.rs:298-311 | a reservation never raises rows in the window plus racing threads |
| KeygenPool.InflightIsTheLiveWorkers | src/keygen.rs:85-105 | in every reachable state each inflight entry is one live create worker of its group, and each such worker has its entry |
| KeygenPool.OneWorkerPerGroup | src/keygen.rs:85-105 | a group never has two live create workers |
| KeygenPool.RespawnOnlyAfterFailure | src/keygen.rs:90-104 | a further worker for a group is spawned only when every earlier one has finished and published a failure, and no key exists |
| KeygenPool.KeyIsForever | src/db.rs:274-293 | a group with an active key has one in every later state, through any rotations and failures |
| KeygenPool.ReadyIsBackedByAKey | src/keygen.rs:124-167 | a request told Ready finds an active key then and later; the create branch and the "no key" branch of get_or_create_key are reached on no run, so all keygen uses the permit pool |
| KeygenPool.ReadyKeyOpens | src/db.rs:561-576 | the key such a request loads decrypts under its own group and id |
| KeygenPool.WaitersAreAnswered | src/keygen.rs:156-165 | a finished worker has always published a final status, so the sender-dropped branch of wait_ready never fires on an unanswered channel |
| KeygenPool.PermitAccount | src/keygen.rs:173-224 | busy threads + ended holders + free permits = max + rotations cancelled in flight, in every state; the cap is exceeded exactly when those outnumber the spare permits; all permits are back when nobody holds one |
| KeygenPool.CapHoldsWithoutCancellation | src/keygen.rs:173-188 | on runs where no running rotation is cancelled at most max keygens run at once |
| KeygenPool.PermitBoundIsMet | src/keygen.rs:173-188 | for every permit count and every number of cancelled rotations a run has max plus that number of unfinished keygens |
| KeygenPool.CancellationBreaksTheCap | src/keygen.rs:173-188 | for every permit count, group and n, a run with cancelled rotations has n unfinished keygens, all detached, with every permit free |
| KeygenPool.RunInv | src/keygen.rs:63-259 | the pool's inductive invariant (inflight, permits, published statuses, waiting requests) holds in every reachable state |
| KeygenAnswers.ReadyGroupIsServed | src/keygen.rs:85-90 | a request for a group with an active key, without faults of its own, has the key after two steps that wait for nobody |
| KeygenAnswers.LookupDecides | src/keygen.rs:85-122 | every lookup that finds the key tells its request Ready at once, and none that finds no key does |
| KeygenAnswers.EnsureLeavesAWorker | src/keygen.rs:90-105 | under the lock a worker is spawned exactly when the group has neither worker nor key, and whoever is not told Ready leaves with a live worker |
| KeygenAnswers.NewsIsDelivered | src/keygen.rs:146-167 | unless its deadline comes first, a waiting request is woken by the published status and goes by it |
| KeygenAnswers.FailedHasItsReason | src/keygen.rs:124-167 | Failed is answered only after a fault of the request's own, a published failure, or, with auto-create off, a check that found no key |
| KeygenAnswers.PendingHasItsReason | src/keygen.rs:124-167 | Pending is answered only at the deadline, or after channel and key were both found missing and no news came since |
| KeygenAnswers.FaultFails | src/keygen.rs:85-122 | a failing database call ends its request as Failed and changes nothing |
| KeygenAnswers.RequestsEnd | src/keygen.rs:124-167 | a request takes at most eight steps, whatever the others do |
| KeygenAnswers.RequestsAreNeverStuck | src/keygen.rs:124-167 | a request has its key, has its answer, or can take a step of its own |
| KeygenAnswers.VerdictHasItsReason | src/keygen.rs:200-241 | a worker publishes Ready only for a stored key or one found on the second look after a rollback, Failed only for a panic or when that look found none |
| KeygenAnswers.PoolIsNeverStuck | src/keygen.rs:173-248 | while any task is unfinished some task can move, so permits never deadlock |
| KeygenAnswers.OnlyRotationReplaces | src/db.rs:253-293 | an active key is replaced only by a rotation of its own group, and every rotation that goes through replaces it |
| KeyRows.KeyTable.InsertActiveKeyResealed | src/db.rs:586-624 | insert with an empty blob, seal under the assigned id, write back: succeeds exactly when no statement fails, the group has no active key, the next id is from 1 and fits, and sealing succeeds; then adds exactly that row |
| KeyRows.KeyTable.InsertKeySealed | src/db.rs:253-267 | all or nothing: commits exactly under those conditions, otherwise the table is as it was |
| KeyRows.KeyTable.RotateKeySealed | src/db.rs:274-293 | retire and insert together or not at all, and exactly when a rotation commits |
| KeyRows.ApplyContract | src/db.rs:253-293 | a failed call changes nothing; a successful one takes a larger id, makes exactly that row the group's active key, keeps every blob and every other group's active key |
| KeyRows.ApplySucceeds | src/db.rs:586-624 | a call succeeds if and only if no statement fails, the next id fits, the secret encrypts under the identity of that id, and a create finds no active key |
| KeyRows.KeyIdsStrictlyIncrease | src/db.rs:156-166 | successful calls return strictly increasing ids over a whole run |
| KeyRows.CommittedKeyOpensForever | src/db.rs:586-647 | a returned key's row stays and opens, under its own group and id and no other, to the secret of the call that made it, in every later state |
| KeyRows.NoBlobSwap | src/dedup.rs:40-47 | in every reachable table a stored blob opens only as its own row, never under another identity and never as a service key, whatever the group is called |
| KeyRows.RowsPersist | src/db.rs:274-293 | over any later calls a committed row keeps everything but its retired mark |
| KeyRows.RunInvariant | src/db.rs:156-166 | at most one active row a group, ids from 1, every row sealed under its own identity, in every reachable table |
| Keystore.AssociatedDataInjective | src/keystore.rs:100-105 | group bytes followed by the 8-byte two's-complement id determine both, for all text and all 64-bit ids |
| Keystore.SealedOpensOnlyAsItself | src/keystore.rs:54-90 | a sealed blob opens to its plaintext under its own KEK, group and id, and fails under every other |
| Keystore.OnlySealedBlobsOpen | src/keystore.rs:76-90 | nothing opens but a version-1 blob of full length, and with an ideal AEAD only one sealed from that plaintext under this KEK, group and id |
| Keystore.SealBlob | src/keystore.rs:54-74 | fails exactly when encryption does; with an ideal AEAD the blob it builds opens to the plaintext under its own KEK, group and id, and fails under every other |
| KeyRateLimit.KeyRateLimiter.CheckAt | src/ratelimit.rs:130-152 | prunes and pushes in place as specified, touches no other identity's bucket and never removes a map key |
| KeyRateLimit.PrunedRefinesReference | src/ratelimit.rs:130-167 | on every timely request sequence, so on every non-decreasing one, the pruned limiter grants exactly what a limiter with the full history grants |
| KeyRateLimit.NonDecreasingIsTimely | src/ratelimit.rs:155-157 | arrival in order is timely |
| KeyRateLimit.WindowsAreBounded | src/ratelimit.rs:83-97 | on every timely sequence each half-open window of the configured length holds at most the ceiling of grants, overall and per identity, where both ceilings count |
| KeyRateLimit.LogsKeepTheWindow | src/ratelimit.rs:130-167 | in any arrival order every log agrees with the full list of grants from the latest time minus the window on, and holds no more stamps than its ceiling |
| KeyRateLimit.GlobalLogIsTheUnion | src/ratelimit.rs:130-152 | in any arrival order, past the latest cutoff the global log is as a multiset the sum of all identity buckets |
| KeyRateLimit.InOrderGlobalLog | src/ratelimit.rs:130-152 | when the last request is the latest one and the window is at least one tick, the whole global log is that sum |
| KeyRateLimit.KeysAreExact | src/ratelimit.rs:134-143 | the map has a bucket for exactly the identities with a request that got past the global ceiling |
| LimiterRuns.BucketsOutliveTheirStamps | src/ratelimit.rs:94-96 | for any ceilings and any distinct identities, an in-order history leaves each a bucket, all stamps expired in all but the last |
| LimiterRuns.StaleGrantsKnowNoCeiling | src/ratelimit.rs:155-157 | under all ceilings but the smallest, requests behind the latest one are granted at one instant in any number, overall and to one identity |
| LimiterOrder.OneAtATime | src/ratelimit.rs:130-152 | in every arrival order a ceiling of one leaves at most one grant in each window, and the log holds the last one |
| LimiterOrder.OrderMatters | src/ratelimit.rs:130-167 | the windows of a scope are bounded in every arrival order if and only if the ceilings leave it at most one grant a window |
| LimiterOrder.PruningMatters | src/ratelimit.rs:130-167 | the pruned limiter answers every request after every history as the full history would, under exactly the same condition |
| KeyRateLimit.InOrderDecision | src/ratelimit.rs:130-152 | a request at or after the latest time, or before one window has passed, is decided as from the full history |
| LimiterRuns.StaleDecisionDiffers | src/ratelimit.rs:155-157 | for every other pair of times and all ceilings but the smallest, a history in order after which the pruned limiter grants what the full history denies |
| LimiterRuns.OneStaleRequestBreaksTheWindow | src/ratelimit.rs:155-157 | for the same pairs of times, one request after a history in order puts one grant more into a window than in order is possible, overall and for one identity |
| DedupLedger.DedupTable.RegisterDedup | src/db.rs:400-449 | insert first, then classify by the existing row; both unique columns kept |
| DedupLedger.DedupTable.ReleaseDedup | src/db.rs:473-495 | removes the row for its owner only |
| DedupLedger.DedupTable.ReassignDedup | src/db.rs:501-535 | over a list with repeats and possible failure at any point: unchanged with the verdict on the first unacceptable ref, or every listed ref with the target and moved counting each ref of the source once |
| DedupBook.ReassignRetry | src/db.rs:497-500 | repeating a batch that went through moves nothing and changes nothing |
| DedupBook.ReassignReverse | src/db.rs:497-535 | the reverse batch always succeeds and restores the ledger exactly when the forward batch moved every distinct ref |
| DedupBook.RegisterRefines | src/db.rs:395-449 | registered, already-yours and taken are decided as by a plain map from value to entry |
| DedupBook.ReleaseRefines | src/db.rs:471-495 | release removes the map entry with that ref for its owner, with the same three answers |
| DedupBook.ReassignRefines | src/db.rs:497-535 | reassign retags the listed entries of the map or none, counts the map's own entries that changed hands, and refuses by the first ref the map does not grant |
| DedupBook.ListsIsBijective | src/db.rs:195-201 | table and map determine each other |
| DedupBook.BookLists | src/db.rs:195-201 | every table with unique values has such a map |
| Disclosure.RunRefinesBook | src/handlers.rs:711-879 | over every run of register, release, reassign and disclose calls the table and the plain map go through the same states and give every call the same answer |
| Disclosure.ApplyContract | src/handlers.rs:711-879 | no call changes an entry whose owner it does not name, rebinds a ref to another value, or adds anything but a registration |
| Disclosure.HandoverNeedsTheOwner | src/handlers.rs:776-879 | a value leaves its owner only through a release or reassign call in that owner's name |
| Disclosure.NullifierIdentifies | src/prf.rs:199-224 | two nullifiers are equal exactly for the same value and client, whatever HKDF does |
| Disclosure.SameNullifier | src/handlers.rs:650-688 | at one moment equal nullifiers mean the same ref and owner; across time the same value and client always give the same nullifier, and another owner means the first gave the value up in between |
| Disclosure.DisclosureIsExact | src/handlers.rs:650-688 | only the stored owner is served, with the nullifier of the stored value; unknown refs and other owners get their own refusals |
| Disclosure.OneOwnerDiscloses | src/handlers.rs:650-688 | in every reachable state two callers who get the same nullifier are the same owner asking for the same entry and client |
| Disclosure.NullifierKeyIsTheClientKey | src/prf.rs:199-224 | two seeds give one nullifier exactly when their HKDF outputs for that client agree |
| Disclosure.AdmittedIsExact | src/handlers.rs:711-852 | which decoded calls are answered 400, field by field |
| Framing.ParseFrame | src/prf.rs:81-90 | a parser recovers the exact field list from every concatenation of LP fields |
| Framing.FrameParse | src/prf.rs:81-90 | whatever the parser accepts is exactly the frame of its result |
| Framing.Buffer.PushLp | src/prf.rs:86-90 | appends the 2-byte big-endian length and the bytes |
| Framing.DedupInput | src/prf.rs:99-108 | the stage-1 input parses back to protocol tag, dedup tag, sybil id and badge type |
| Framing.DiscloseInputs | src/prf.rs:199-215 | the key-derivation info and the stage-2 message, which parses back to protocol tag, rp tag, value and client |
| Framing.DedupInputInjective | src/prf.rs:92-108 | distinct (sybil id, badge type) pairs have distinct stage-1 inputs |
| Framing.DiscloseMessageInjective | src/prf.rs:209-215 | distinct (value, client) pairs have distinct stage-2 messages |
| Framing.FamiliesDisjoint | src/prf.rs:77-79 | no stage-1 input is a stage-2 message |
| Framing.DiscloseInfoSeparated | src/prf.rs:200-203 | disclosure-key infos differ between clients and from the nullifier-seed info |
| Framing.HandlerCapsFit | src/handlers.rs:431-443 | every field length the handlers admit meets the 65535-byte bound |
| ServiceKeys.ServiceKeyTable.InsertServiceKey | src/db.rs:374-389 | write-once per purpose |
| ServiceKeys.ServiceKeyTable.SealMasterSeed | src/dedup.rs:113-128 | succeeds exactly when no seed is stored and the given one can be derived from and sealed; then stores a blob that opens to it and returns its public key, otherwise changes nothing |
| ServiceKeys.ServiceKeyTable.InitServiceKeys | src/dedup.rs:62-104 | the same, exactly on an unpinned, non-importing node |
| ServiceKeys.ServiceKeyTable.PreparePrfBoot | src/dedup.rs:152-263 | when exactly a boot is enabled or disabled, that its key is the trimmed pin derived from the stored seed, and that anything but an enabled boot writes nothing |
| ServiceKeys.TrimPadded | src/dedup.rs:190-193 | trimming a padded pin gives the pin |
| ServiceKeys.PinSurvivesPadding | src/dedup.rs:190-193 | blanks and line breaks around a base64url pin never matter, and nothing of the pin is taken off |
| KeyLifecycle.WriteOnce | src/db.rs:371-389 | over every interleaved history a stored service key is never changed or removed |
| KeyLifecycle.OnlyTheWinnerReturnsAKey | src/dedup.rs:91-128 | at most one init or seal call of a history returns a public key, none if a seed was there, and it is derived from the stored seed |
| KeyLifecycle.SeedAppearsByOneInsert | src/dedup.rs:113-128 | the seed is written at most once and only by that call |
| KeyLifecycle.GuardedInitNeverMints | src/dedup.rs:62-85 | an init call on a pinned or importing node never mints |
| KeyLifecycle.EnabledBootsAgree | src/dedup.rs:189-261 | any two enabled boots at any times serve one seed and one public key, each equal to its trimmed pin, and at most one pairwise secret |
| KeyLifecycle.RefusingBootWritesNothing | src/dedup.rs:205-260 | a boot writes only the pairwise secret, only in its last call, and only by coming up enabled |
| KeyLifecycle.LaterBootsServeTheImport | src/dedup.rs:205-260 | after a boot with an imported secret every boot not over by then, even one about to insert, refuses or serves the same pairwise function on all inputs, and one that tries to import refuses |
| KeyLifecycle.RunInv | src/dedup.rs:87-263 | the lifecycle's inductive invariant holds in every reachable state |
| ServiceTraces.MintOutcome | src/dedup.rs:91-128 | over every interleaving an undisturbed init or seal call returns a key if and only if it is allowed, found no seed at any of its calls, and its seed derives and seals; the seed is stored then |
| ServiceTraces.BootOutcome | src/dedup.rs:152-263 | over every interleaving an undisturbed boot comes up if and only if what its own lookups saw passed and an import found its place free; when it stays off, and when it is still under way |
| ServiceTraces.FailingCallRefuses | src/dedup.rs:91-263 | a failing database call changes nothing and ends its process without key or service |
| Identity.PrfAdmissionIsExact | src/identity.rs:163-211 | a caller passes both layers exactly when the name the admin, client, PRF first-match rule pins is on the PRF list, and that name is one of the certificate's own |
| Identity.RolesAreExact | src/identity.rs:154-211 | which certificates get which role, and the PRF flag, in both directions |
| Identity.SigningIsExact | src/identity.rs:104-111 | who may sign, who may rotate and who is turned away, by the certificate and the lists |
| Identity.PinnedNameIsExact | src/identity.rs:163-211 | an admitted caller is known by the deciding name, or by the placeholder if the certificate has none |
| Identity.OpenListNeverGrantsPrf | src/identity.rs:20-27 | without a PRF-listed name of its own no certificate passes, even with an open client list |
| Identity.PrfListNeverWidensSigning | src/handlers.rs:150-166 | changing the PRF list never changes who may sign or rotate |
| Identity.RequirePrf | src/handlers.rs:459-489 | who is refused, and that a refused caller spends no rate budget |

## Left out

- RSA blind signing, safe-prime keygen, VOPRF evaluation and the DLEQ proof: calls into other crates; they appear as outcomes or parameters.
- TLS, certificate parsing, the accept layer, HTTP extractors, base64, hex and JSON decoding: handlers start from decoded fields.
- Environment loading, zeroization, logging and constant-time comparison: no state property.
- The identifier length checks of `/sign` and the `/key` handlers' response bodies, including which public key a concurrent rotate reports: only easy members, or not guaranteed by the source.
- Loss of a keygen worker task other than through its own code (runtime shutdown), and closing of the semaphore, which the source never does.
- A window longer than the 64-bit range in the ledger-based limiter: arithmetic there is unbounded in the model.
- Re-minting a colliding random entry ref: the collision is the error it is in the source.
