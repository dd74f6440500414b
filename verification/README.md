# Verified model of the platform registrar, its data formats and the operator

This Dafny project models the programs that register TDX platforms with Intel PCS, and the operator
that deploys them, and proves what they keep over all inputs, runs and interleavings.

- **Registrar** (`Registrar`, `RegistrarPause`, `RegistrarCache`, `RegistrarWakeups`, `RegistrarIndex`,
  `RegistrarRuns`, `RegistrarContext`, `RegistrarOutcome`, `Pause`, `PiidIndex`). `pck-cert-tool register` is a state machine
  whose atomic steps are those between two `.await` points: up to four reconciles interleave over the shared pause, the Secret
  store and the controller's queue. `Legal` says which event sequences are runs. `RegistrarContext` is the
  code's own sequential form, proved to reach exactly the state and action that the machine reaches with the
  same answers; `RegistrarOutcome` says case by case, in numbers and bytes, what those are.
- **Formats** (`Bytes`, `Text`, `CacheBlob`, `PlatformData`, `GetPlatforms`): the QPL cache blob, the
  fingerprint, hex and decimal text, the EFI variable and the JSON line of `get_platform_info`. A Rust string
  is the sequence of its UTF-8 bytes.
- **Certificates** (`Certs`): issuer chains, the PCK certificate filter, the TCB Info decision. What the
  X.509, PEM, JSON, URL and signature libraries answer is a parameter (`Pki`).
- **Certificate watcher** (`Watcher`): `get-certificates` and the `cache-ready` probe.
- **Operator** (`Subsequences`, `MergePatch`, `OperatorStatus`, `Operator`, `OperatorLoop`, `Conditions`, `NodeSelector`,
  `External`): the guarded status writer over JSON merge patches, the condition list, node selectors against
  their admission rules, and the External-mode rewrite of the pod template.

Code that updates fields, buffers or lists in place is a class or a method with loops, proved against a
specification function; the theorems are about those functions. Check everything with
`dafny verify dfyconfig.toml`.

## Assumptions

- The digest SHA-256 is a function parameter, and nothing is assumed of it. Where a collision would matter the
  result names the pair that collides (`Collide`, `StoredCollides`, `Covers`).
- kube-rs: a key is never reconciled twice at once, at most four keys are at a time, a key has at most one
  pending wake-up, the earlier of two, and it stays until used. The monotonic clock never goes back; the
  system clock may jump, also to before 1970.
- Only the registrar writes `-pck` Secrets and, in the state machine, the `piid-index` Secret. In `PiidIndex`
  other managers may write the latter too, but not under the registrar's field manager names.
- The operator reads a fresh status and its patches succeed; `Kept` holds of a resource without a status.
- Equal resource versions mean equal content (`Consistent`).
- Text that the code compares with fixed strings is an enumeration with an `Other` or `Free` case for all
  other strings, which never stands for one of the fixed ones.

## Where the code does less than its comments say

- `PcsPause` "holds back all Intel PCS requests": it does if and only if no registration stands between its
  admission and its second request (`HoldsBackAllIffNoneAdmitted`). After a 429 at most six requests follow
  (`AtMostSixRequests`), and six can (`SixIsReached`).
- The PIID index holds "all registered platforms": it does if and only if each of them had an entry or got its
  index write through (`IndexedIffWritten`, `AllIndexedIffWritten`); `RegisteredWithoutIndexEntry` is a run where one did not.
- "PCK secret is expired, refreshing": if and only if a watch event for the platform starts a reconcile
  (`RefreshedIffWatched`); `ExpiryIsReached` is a run to a Secret that stays expired.
- The dirty check is harmless only for what the operator itself writes (`SkipIsHarmless`); for any stored status,
  if and only if its one condition reports the outcome (`SkipIsHarmlessIffReported`).
- The superseded-instance branch does not settle (`SettlesIffSingle`); the name rule of the resource
  (`bin/operator/src/tdx_quote_generation_service/types.rs:27`) keeps it from being reached.
- `lastTransitionTime` is documented as the time of a status change. The condition list keeps it so
  (`TransitionTimeIsRunStart`), the operator's patches do not (`TransitionTimeIsPatchTime`,
  `TimeMovesWithoutFlip`).
- A zero-length EFI structure is read without error but rejected by the registrar (`ProducerMeetsConsumer`).

## Model

Specification functions such as `Registrar.Step`, `CacheBlob.Encode`, `Operator.GuardedWrite` or
`Conditions.Set` have no contract of their own; the rows name the members that state what is true of them.

| member | source | states |
|---|---|---|
| `RegistrarPause.AtMostSixRequests` | bin/pck-cert-tool/src/main.rs:868-896 | in every interleaving of up to four reconciles, from the moment a pause is recorded until it ends, no registration is admitted and at most six more requests go to Intel PCS |
| `RegistrarPause.PauseHoldsBack` | bin/pck-cert-tool/src/main.rs:868-874 | the same from any state in which a pause is in force: admissions stop, and requests still sent are bounded by what the admitted registrations have left |
| `RegistrarPause.PauseDoesNotStopAdmitted` | bin/pck-cert-tool/src/main.rs:925-935 | a pause does not stop admitted registrations, however far they have come: from every state a run sends all the requests they have left, at the same clock reading and whatever pause is in force |
| `RegistrarPause.HoldsBackAllIffNoneAdmitted` | bin/pck-cert-tool/src/main.rs:868-935 | for every state with a pause in force: no run sends anything before it ends if and only if no registration stands between admission and second request; otherwise what is left is the exact maximum |
| `RegistrarPause.SixIsReached` | bin/pck-cert-tool/src/main.rs:868-935 | the bound is exact: for any four platforms with valid data and no valid stored Secret a run reaches a recorded pause and then six requests before it ends |
| `RegistrarPause.PauseLastsAnHour` | bin/pck-cert-tool/src/main.rs:890-896 | in every run no pause outlives the last 429 by more than 3600 s, and without a 429 the pause stays as it was |
| `RegistrarPause.StepSends` | bin/pck-cert-tool/src/main.rs:920-949 | every step pays for the requests it sends out of what the admitted registrations are still allowed: two each before the first request, one between the two |
| `RegistrarCache.SkipIsSound` | bin/pck-cert-tool/src/main.rs:860-866 | in every run, if a reconcile skips Intel PCS, the stored blob parses, has not expired, its header expiration equals the annotation, and its CPU SVN is the current request's, unless the digest collides on the stored and the current request |
| `RegistrarCache.ValidIsStoredFor` | bin/pck-cert-tool/src/main.rs:738-834 | on any Secret some registration applied, the check passes only for a request that the blob is right for, or a digest collision |
| `RegistrarCache.RegisteredIsSkippedUntilExpiry` | bin/pck-cert-tool/src/main.rs:951-987 | after a registration stored its Secret, in every interleaving until the next store: the same data (or a digest collision with it) is skipped at exactly the times before the expiration, other data never; a clock before 1970 is an error |
| `RegistrarCache.SecretIffStored` | bin/pck-cert-tool/src/main.rs:985-987 | in every run a platform has a Secret if and only if it had one or a Secret write of its own went through |
| `RegistrarCache.CheckOfApplied` | bin/pck-cert-tool/src/main.rs:738-834 | on a Secret some registration applied, the validity check comes down to fingerprint, clock and expiration |
| `RegistrarCache.CheckExact` | bin/pck-cert-tool/src/main.rs:738-834 | the validity check in full, of whatever was read: an error if and only if the read failed, or the fingerprints match on a clock before 1970; valid if and only if the fingerprints match, the decimal expiration is later than the clock and the certificate is the encoding of a blob |
| `RegistrarCache.FailedReadIsRetried` | bin/pck-cert-tool/src/main.rs:746-749 | a read that fails is retried after ten seconds; nothing is written, sent or paused |
| `RegistrarCache.StoredExpiration` | bin/pck-cert-tool/src/main.rs:951-956 | the Secret about to be stored expires 8760 hours after the clock reading taken for it; a blob that cannot be built stores nothing |
| `RegistrarCache.RunKeepsSecret` | bin/pck-cert-tool/src/main.rs:985-987 | no step but a platform's own Secret write changes its -pck Secret |
| `RegistrarCache.FailedIndexIsNotRepaired` | bin/pck-cert-tool/src/main.rs:985-991 | a valid -pck Secret does not imply an index entry: when the index patch fails, every later reconcile of the same data before expiry and the next store is a skip that leaves the index as it is |
| `RegistrarCache.WrittenNamesAreNotPlatforms` | bin/pck-cert-tool/src/platform_data.rs:55-62 | names the registrar writes (`<32 hex>-pck`, `piid-index`) are never accepted as platform data and never coincide |
| `RegistrarCache.OnlyPlatformSecretsAreWritten` | bin/pck-cert-tool/src/main.rs:843-857 | in every run every stored -pck Secret has the name of an accepted platform, so none is ever taken for platform data |
| `RegistrarWakeups.EndIsSettledOrRetried` | bin/pck-cert-tool/src/main.rs:719-732 | a reconcile that ends either settled (valid Secret, complete registration, or a non-429 4xx answer) and leaves the queue alone, or has a wake-up pending after exactly its retry delay, in nanoseconds, unless an earlier one is |
| `RegistrarWakeups.WatchedDataIsUsed` | bin/pck-cert-tool/src/main.rs:698-704 | a watch event replaces the data a reconcile works on and wakes the platform at once |
| `RegistrarWakeups.DeletedIsDropped` | bin/pck-cert-tool/src/main.rs:849-853 | a reconcile of a deleted platform ends where it begins |
| `RegistrarWakeups.InvalidDataSettles` | bin/pck-cert-tool/src/main.rs:849-857 | a reconcile of missing or invalid data ends at once without a timer; it goes on exactly when the data is valid |
| `RegistrarWakeups.WakeupPersists` | bin/pck-cert-tool/src/main.rs:730-731 | a pending wake-up is never lost and never moved later until its reconcile begins |
| `RegistrarWakeups.QuietUntilWatched` | bin/pck-cert-tool/src/main.rs:898-904 | once a platform has no reconcile and no wake-up, nothing is read, sent or written for it until a watch event for it, in every interleaving |
| `RegistrarWakeups.RejectedIsNotResent` | bin/pck-cert-tool/src/pcs_client.rs:182-239 | after a non-429 4xx rejection nothing more is sent for that platform until a watch event for it |
| `RegistrarRuns.RegisteredWithoutIndexEntry` | bin/pck-cert-tool/src/main.rs:985-991 | a run from any state in which a platform is new: its index patch fails, the retry after 300 s skips, and it is left settled with a valid Secret and the index as it was |
| `RegistrarRuns.ExpiryIsReached` | bin/pck-cert-tool/src/main.rs:887-887 | a run from any such state to one in which the stored Secret has expired and nothing is queued for the platform |
| `RegistrarRuns.ExpiredIsNotRefreshed` | bin/pck-cert-tool/src/main.rs:887-887 | from every state with an expired Secret and nothing queued: without a watch event nothing is read or sent for the platform and the Secret stays the expired one, however far the clocks go |
| `RegistrarRuns.WatchedIsRefreshed` | bin/pck-cert-tool/src/main.rs:804-812 | a watch event, with any valid data and a free slot, does lead past the validity check towards a new registration |
| `RegistrarRuns.RefreshedIffWatched` | bin/pck-cert-tool/src/main.rs:860-866 | so, given a free slot, an expired Secret can be refreshed if and only if a watch event for the platform occurs |
| `RegistrarWakeups.RunCredit` | bin/pck-cert-tool/src/main.rs:876-907 | requests of both kinds never outrun their causes, along any run from any state |
| `RegistrarWakeups.RegistrationsAreCaused` | bin/pck-cert-tool/src/main.rs:876-907 | per platform, registrations sent never exceed watch events plus fired timers, and second requests never exceed first ones |
| `RegistrarIndex.StepTouchesOwnEntry` | bin/pck-cert-tool/src/main.rs:989-991 | one step of a platform's reconcile changes at most that platform's entry of the index |
| `RegistrarIndex.IndexHoldsLastEntries` | bin/pck-cert-tool/src/main.rs:576-604 | in every run from an index with separate ownership, each platform's entry is the PIID of its last successful index write; a platform without one has the entry it had before, if any |
| `RegistrarIndex.IndexedIffWritten` | bin/pck-cert-tool/src/main.rs:989-991 | in every run a platform is in the index if and only if it was before or an index write of its own went through |
| `RegistrarIndex.AllIndexedIffWritten` | bin/pck-cert-tool/src/main.rs:985-991 | a run leaves every platform with a Secret indexed if and only if each one whose Secret was there or got stored had an entry or got its index write through |
| `RegistrarIndex.RunWritesIndex` | bin/pck-cert-tool/src/main.rs:598-600 | the index after a run is the outcome of that run's index writes in order |
| `Registrar.RunKeepsInvariant` | bin/pck-cert-tool/src/main.rs:694-704 | every reachable state: at most four reconciles, each for an accepted platform name; every -pck Secret is one some registration applied; per-platform managers own at most their own index key |
| `Registrar.RunSplit` | bin/pck-cert-tool/src/main.rs:837-908 | runs compose: a run of two parts is a run of the second from where the first ends |
| `Registrar.StepKeepsActive` | bin/pck-cert-tool/src/main.rs:698-704 | every step keeps the limit of four and the soundness of each reconcile's stage |
| `Registrar.StepKeepsStore` | bin/pck-cert-tool/src/main.rs:985-987 | every step keeps the stored Secrets genuine |
| `Registrar.StepKeepsIndex` | bin/pck-cert-tool/src/main.rs:991-991 | every step keeps index ownership separate |
| `Registrar.StepKeepsInvariant` | bin/pck-cert-tool/src/main.rs:694-704 | so every step keeps the whole invariant |
| `RegistrarOutcome.BeforeRequests` | bin/pck-cert-tool/src/main.rs:860-874 | the whole reconcile up to the first request, in numbers: retried after ten seconds, ended, put off until the pause ends, or admitted, and exactly when each |
| `RegistrarOutcome.FirstRequestFails` | bin/pck-cert-tool/src/main.rs:888-906 | a first request without a usable answer: a 429 extends the pause and is retried after its delay, another 4xx waits for new data, anything else is retried after five minutes; nothing is written |
| `RegistrarOutcome.SecondRequestFails` | bin/pck-cert-tool/src/main.rs:935-949 | the same of the second request |
| `RegistrarOutcome.RegistrationStores` | bin/pck-cert-tool/src/main.rs:951-991 | with both answers usable and the Secret applied: under `<name>-pck` stand the fingerprint of the request, the expiration one year ahead and the blob of exactly its CPU SVN, the TCB Info, the chain and the certificates received; other Secrets stay; the index gets the PIID received or the platform is retried after five minutes |
| `RegistrarOutcome.NothingIsStored` | bin/pck-cert-tool/src/main.rs:951-987 | on a clock before 1970, for a text that is too long and when the apply fails nothing is written, and the platform is retried after five minutes |
| `RegistrarOutcome.NamesAreText` | bin/pck-cert-tool/src/main.rs:574-583 | the names `<name>-pck`, `piid-index` and `pck-cert-tool/<name>`, as texts |
| `RegistrarContext.CheckPckSecret` | bin/pck-cert-tool/src/main.rs:738-834 | the code's form of the validity check agrees with its specification in every branch |
| `RegistrarContext.BuildFor` | bin/pck-cert-tool/src/main.rs:951-956 | building the blob after the second answer succeeds and fails as the state machine says, with the bytes and expiration it says |
| `RegistrarContext.PlayIsRun` | bin/pck-cert-tool/src/main.rs:837-908 | the machine played with scripted answers is a legal run, made of this platform's steps with exactly those answers |
| `RegistrarContext.ProcessedIsRun` | bin/pck-cert-tool/src/main.rs:837-908 | the same from the event that begins the reconcile |
| `RegistrarContext.PlayEnds` | bin/pck-cert-tool/src/main.rs:719-732 | it ends with the slot free, the returned action queued, and clocks, watched data and other reconciles as they were |
| `RegistrarContext.FailurePlays` | bin/pck-cert-tool/src/main.rs:888-906 | what follows a failure: pause and retry after it for a 429, wait for a change after another 4xx, retry in 300 s otherwise |
| `RegistrarContext.RegistrarContext.FetchPckCerts` | bin/pck-cert-tool/src/main.rs:924-933 | the first request brings the scripted certificates, or the failure its answer stands for |
| `RegistrarContext.RegistrarContext.FetchTcbInfo` | bin/pck-cert-tool/src/main.rs:935-949 | the second request brings the scripted TCB Info, or the failure its answer stands for |
| `RegistrarContext.RegistrarContext.BuildBlob` | bin/pck-cert-tool/src/main.rs:951-956 | the blob built is the one the machine is about to store, or building it fails as there |
| `RegistrarContext.RegistrarContext.ApplyPckSecret` | bin/pck-cert-tool/src/main.rs:958-987 | the Secret applied is the one the machine stores; when the apply fails the Secrets are as they were |
| `RegistrarContext.RegistrarContext.ApplyPiidIndex` | bin/pck-cert-tool/src/main.rs:991-991 | the index patched is the machine's; when the patch fails nothing changes |
| `RegistrarContext.RegistrarContext.RegisterPlatform` | bin/pck-cert-tool/src/main.rs:911-1001 | success is the machine's success with these answers; on a failure it stands at the step that fails, nothing after it having happened |
| `RegistrarContext.RegistrarContext.CheckStage` | bin/pck-cert-tool/src/main.rs:860-866 | skips, fails or goes on exactly as the machine does on what was read |
| `RegistrarContext.RegistrarContext.GateStage` | bin/pck-cert-tool/src/main.rs:868-874 | defers by the remaining pause or admits, as the machine does |
| `RegistrarContext.RegistrarContext.HandleFailure` | bin/pck-cert-tool/src/main.rs:888-906 | the error arm leaves the state and returns the action that the machine reaches from that failure |
| `RegistrarContext.RegistrarContext.Start` | bin/pck-cert-tool/src/main.rs:841-858 | the state after the start is the machine's: the wake-up is used up, and a reconcile is under way for valid data only |
| `RegistrarContext.RegistrarContext.ProcessPlatformSecret` | bin/pck-cert-tool/src/main.rs:837-908 | the whole reconcile leaves exactly the state, and returns exactly the action, that the machine reaches with the answers it gets |
| `PiidIndex.PatchTouchesOneKey` | bin/pck-cert-tool/src/main.rs:582-604 | a forced apply by the per-QE-ID manager sets this platform's key and changes nothing else |
| `PiidIndex.WriteKeepsOwnKeys` | bin/pck-cert-tool/src/main.rs:583-584 | no write, by any manager, makes a per-platform manager own another platform's key |
| `PiidIndex.OwnKeysInEveryRun` | bin/pck-cert-tool/src/main.rs:571-574 | that holds after every sequence of writes |
| `PiidIndex.ApplyExact` | bin/pck-cert-tool/src/main.rs:582-604 | a forced apply sets the keys it names, drops those of the others that its manager alone owned, and keeps the rest |
| `PiidIndex.ApplyOwners` | bin/pck-cert-tool/src/main.rs:582-604 | its manager then owns what it named, and no other manager loses a key but one that got another value |
| `PiidIndex.IndexIsUnionOfLastWrites` | bin/pck-cert-tool/src/main.rs:571-574 | for every interleaving of registrations, from any index with separate ownership, a key holds its last written value, and a key not written is as before |
| `PiidIndex.RegistrarManagerInjective` | bin/pck-cert-tool/src/main.rs:583-583 | different platforms have different field managers |
| `Pause.PcsPause.Pause` | bin/pck-cert-tool/src/pcs_client.rs:157-160 | the pause becomes the later of the old end and now + duration |
| `Pause.PcsPause.Remaining` | bin/pck-cert-tool/src/pcs_client.rs:163-167 | the time to the end of the pause while it is in the future, otherwise none |
| `Pause.PauseIsMaximum` | bin/pck-cert-tool/src/pcs_client.rs:155-160 | after any sequence of calls the pause ends at the latest end any of them asked for |
| `Pause.PauseOrderIndependent` | bin/pck-cert-tool/src/pcs_client.rs:155-160 | the order in which the lock was taken makes no difference |
| `Pause.RemainingExact` | bin/pck-cert-tool/src/pcs_client.rs:162-167 | requests are held back exactly while some call's pause has not ended, for as long as the longest of them |
| `Pause.RetryAfterExact` | bin/pck-cert-tool/src/pcs_client.rs:173-179 | the delay is min(n, 3600) for decimal text of n below 2^64, with white space, a plus sign and leading zeros allowed, and 60 for every other header and for none |
| `Pause.PauseIsBounded` | bin/pck-cert-tool/src/main.rs:890-896 | for any calls in any lock order, each for a 429, the pause ends at most 3600 s after the last of them |
| `CacheBlob.BuildCacheBlob` | bin/pck-cert-tool/src/cache.rs:19-59 | the bytes are the encoding of the four fields and the expiration one year ahead; fails exactly on a clock before 1970 or a field of 2^32 bytes or more |
| `CacheBlob.GetExpirationTime` | bin/pck-cert-tool/src/cache.rs:61-68 | one year after the clock reading; an error for a clock before 1970 |
| `CacheBlob.WriteField` | bin/pck-cert-tool/src/cache.rs:35-44 | appends the length in four little-endian bytes and the field; refuses 2^32 bytes or more |
| `CacheBlob.Take` | bin/pck-cert-tool/src/cache.rs:85-90 | splits off exactly the requested bytes and advances, or fails leaving nothing read |
| `CacheBlob.ReadField` | bin/pck-cert-tool/src/cache.rs:92-95 | reads one length-prefixed UTF-8 field, exactly when the rest begins with one |
| `CacheBlob.ReadFields` | bin/pck-cert-tool/src/cache.rs:109-117 | accepts exactly four fields and nothing after them |
| `CacheBlob.ParseCacheBlob` | bin/pck-cert-tool/src/cache.rs:84-129 | accepts exactly the encodings of blobs; rebuilding what was parsed gives the input bytes, parsing what was built gives the fields; trailing bytes are reported only after a whole blob |
| `CacheBlob.FormatIs` | bin/pck-cert-tool/src/cache.rs:29-56 | the format, written out: bytes 1, 0, 4, 0, 0, 0, the expiration in eight bytes, then CPU SVN, TCB Info, chain and certificates, each after its length in four |
| `CacheBlob.AcceptedBytes` | bin/pck-cert-tool/src/cache.rs:98-108 | every accepted byte string starts with those six bytes, and byte `i` of its expiration and of its first length counts the `i`-th power of 256 |
| `Bytes.LeByteAt` | bin/pck-cert-tool/src/cache.rs:30-41 | byte `i` of a number counts the `i`-th power of 256: least significant first |
| `CacheBlob.PrefixFree` | bin/pck-cert-tool/src/cache.rs:114-118 | no blob's encoding is a prefix of another's |
| `CacheBlob.EncodeInjective` | bin/pck-cert-tool/src/cache.rs:29-56 | different blobs have different bytes |
| `CacheBlob.NoTruncationOrExtension` | bin/pck-cert-tool/src/cache.rs:82-84 | no strict prefix and no extension of an accepted byte string is accepted |
| `Bytes.ValidUtf8OfScalars` | bin/pck-cert-tool/src/cache.rs:94-94 | the UTF-8 grammar (section 4 of RFC 3629) admits every encoding of scalar values |
| `Bytes.ScalarsOfValidUtf8` | bin/pck-cert-tool/src/cache.rs:94-94 | and nothing else: every accepted string is the encoding of some scalars |
| `PlatformData.PrepareExact` | bin/pck-cert-tool/src/platform_data.rs:55-89 | acceptance is decided by the name and three keys alone, and the request carries them unchanged |
| `PlatformData.FromSecretData` | bin/pck-cert-tool/src/pcs_client.rs:70-94 | succeeds exactly when the three keys exist and are UTF-8 |
| `PlatformData.RegistrationFingerprint` | bin/pck-cert-tool/src/platform_data.rs:37-51 | the loop feeds the digest the length-prefixed fields in order and renders `sha256:<hex>` |
| `PlatformData.PreimageIs` | bin/pck-cert-tool/src/platform_data.rs:39-47 | the bytes hashed: platform manifest, PCE ID and CPU SVN in this order, each after its length in eight little-endian bytes |
| `PlatformData.FingerprintText` | bin/pck-cert-tool/src/platform_data.rs:48-50 | the text recorded is `sha256:` and the digest in hex |
| `PlatformData.PreimageInjective` | bin/pck-cert-tool/src/platform_data.rs:39-47 | different requests feed the digest different byte streams, for fields of any length |
| `PlatformData.RenderedInjective` | bin/pck-cert-tool/src/platform_data.rs:49-50 | different digests are rendered differently |
| `PlatformData.FingerprintIdentifies` | bin/pck-cert-tool/src/platform_data.rs:33-51 | fingerprints are equal if and only if the requests are, a digest collision apart |
| `PlatformData.OtherKeysDoNotMatter` | bin/pck-cert-tool/src/platform_data.rs:35-36 | editing any other key changes neither acceptance, nor the request, nor the fingerprint |
| `Text.DecodeHex` | bin/pck-cert-tool/src/pcs_client.rs:504-515 | accepts exactly 2N hex characters and fills the buffer with their value |
| `Text.HexRoundTrip` | bin/pck-cert-tool/src/platform_data.rs:49-49 | decoding printed hex gives the bytes back |
| `Text.EncodedDigits` | bin/pck-cert-tool/src/platform_data.rs:49-49 | printed hex is two of the characters `0123456789abcdef` for each byte, the high half first |
| `Text.HexCanonical` | bin/pck-cert-tool/src/pcs_client.rs:504-515 | printing decoded hex gives the text back in lower case |
| `Text.HexDigitsAre` | bin/pck-cert-tool/src/platform_data.rs:29-31 | the hex digits are the 22 characters 0-9, a-f and A-F, each with its value |
| `Text.ParseU64Exact` | bin/pck-cert-tool/src/main.rs:790-790 | `parse::<u64>` accepts exactly decimal text below 2^64 with leading zeros and one plus sign allowed |
| `Text.ParseU64OfDecimal` | bin/pck-cert-tool/src/main.rs:971-971 | the expires-at annotation is read back as the number written |
| `Text.DecimalDigit` | bin/pck-cert-tool/src/main.rs:971-971 | the digit at place `i` from the right counts the `i`-th power of ten |
| `Text.DecimalLength` | bin/pck-cert-tool/src/main.rs:971-971 | and there are enough of them |
| `Pause.SpacesAre` | bin/pck-cert-tool/src/pcs_client.rs:176-176 | the ASCII characters that `trim` takes off |
| `GetPlatforms.PrintJsonOutput` | bin/get-platform-info/get_platform_info.c:122-164 | prints exactly the JSON line of the five hex members, for any buffers |
| `GetPlatforms.MembersTextInjective` | bin/get-platform-info/get_platform_info.c:128-161 | the text of members whose names and values need no escaping comes from no other such members |
| `GetPlatforms.PrintedLineDetermines` | bin/get-platform-info/get_platform_info.c:122-164 | the printed line determines all five buffers, of whatever lengths |
| `GetPlatforms.PrintedLineIs` | bin/get-platform-info/get_platform_info.c:126-163 | the printed line, written out with its names, quotes, colons and commas |
| `GetPlatforms.InfoExact` | bin/pck-cert-tool/src/main.rs:203-226 | the reader accepts exactly the objects whose four members are hex texts of 32, 4, 4 and 32 characters, and takes them over unchanged |
| `GetPlatforms.OutStream.PrintHex` | bin/get-platform-info/get_platform_info.c:130-132 | prints two lower-case digits for each byte |
| `GetPlatforms.CopyFixedHexField` | bin/pck-cert-tool/src/main.rs:168-176 | accepts exactly N hex characters and copies them |
| `GetPlatforms.ManifestExact` | bin/pck-cert-tool/src/main.rs:261-310 | accepts exactly the EFI variables whose size field counts the bytes after the header, and returns their hex |
| `GetPlatforms.ManifestBytes` | bin/pck-cert-tool/src/main.rs:266-309 | the same in bytes: the size is byte 6 plus 256 times byte 7 and counts what follows byte 7; an absent variable is no error, one that cannot be opened is |
| `GetPlatforms.SecretKeys` | bin/pck-cert-tool/src/main.rs:389-399 | every key of the secret; without a manifest the registrar rejects it |
| `GetPlatforms.ProducerMeetsConsumer` | bin/pck-cert-tool/src/main.rs:378-399 | across the three programs, for all enclave bytes and EFI structures: the written secret is accepted by the registrar if and only if the structure is not empty, and the request then decodes to the original bytes |
| `GetPlatforms.ManifestBoundIsTight` | bin/pck-cert-tool/src/platform_data.rs:24-26 | 131070 is the longest manifest both sides accept; one byte of structure more is accepted by neither |
| `Certs.DecodeAndValidateIssuerChain` | bin/pck-cert-tool/src/pcs_client.rs:451-501 | succeeds exactly when the text holds two certificates, in either order, of which one is a self-signed root and the other is not and is signed by it; returns them as root and issuer |
| `Certs.ValidateChain` | bin/pck-cert-tool/src/pcs_client.rs:461-500 | the same on the decoded certificates, through `swap_remove` |
| `Certs.IdentifyRoot` | bin/pck-cert-tool/src/pcs_client.rs:468-495 | finds which of the two is the root, or that neither way round makes a chain |
| `Certs.SwapRemovedRest` | bin/pck-cert-tool/src/pcs_client.rs:498-499 | `swap_remove` takes out one element and keeps the others |
| `Certs.ChainIsUnique` | bin/pck-cert-tool/src/pcs_client.rs:478-488 | a chain text has at most one (root, issuer) pair |
| `Certs.ChainOrderIndependent` | bin/pck-cert-tool/src/pcs_client.rs:468-500 | the order of the certificates does not change the pair |
| `Certs.FilterAndVerifyPckCerts` | bin/pck-cert-tool/src/pcs_client.rs:529-605 | succeeds exactly when JSON and chain are valid, every available entry verifies, one exists and the first yields a PIID; the answer is then determined |
| `Certs.FilterEntries` | bin/pck-cert-tool/src/pcs_client.rs:547-602 | the loop: kept plus skipped is the input length, and an error names the first available entry that does not verify |
| `Certs.KeptIsSubsequence` | bin/pck-cert-tool/src/pcs_client.rs:551-567 | what is kept is every available entry, unchanged, in order, and nothing else |
| `Certs.FirstKept` | bin/pck-cert-tool/src/pcs_client.rs:598-602 | the PIID comes from the first available entry |
| `Certs.FilterOrderIndependent` | bin/pck-cert-tool/src/pcs_client.rs:539-543 | the filter's answer is unique and the same for both orders of the chain |
| `Certs.FilterMeans` | bin/pck-cert-tool/src/pcs_client.rs:529-605 | what the filter answers, in terms of the libraries alone: the issuer of the chain signed every certificate not marked `Not available`, those are the ones kept, there is one, and the first yields the PIID; otherwise no answer |
| `Certs.ChainMeans` | bin/pck-cert-tool/src/pcs_client.rs:451-495 | what a chain is, in the same terms: two certificates in either order, both parse, one alone signed itself, and it signed the other |
| `Certs.TcbInfoMeans` | bin/pck-cert-tool/src/pcs_client.rs:629-685 | what genuine TCB Info is, in the same terms: two chains with one root, and a document whose 128 hex characters are the signature of its raw `tcbInfo` under the key of the certificate that root signed |
| `Certs.EqIgnoreAsciiCaseMeans` | bin/pck-cert-tool/src/pcs_client.rs:649-649 | FMSPCs are compared up to the case of their letters and nothing else |
| `Certs.NotAvailableIs` | bin/pck-cert-tool/src/pcs_client.rs:552-552 | the mark is the text `Not available` |
| `Certs.VerifyTcbInfoSignature` | bin/pck-cert-tool/src/pcs_client.rs:629-657 | accepts exactly documents with a 64-byte hex signature of their raw `tcbInfo` text that name the expected FMSPC |
| `Certs.VerifyTcbInfo` | bin/pck-cert-tool/src/pcs_client.rs:662-685 | accepts exactly when both chains are valid, share their root, and the TCB signing certificate signed the document |
| `Certs.TcbDecisionOrderIndependent` | bin/pck-cert-tool/src/pcs_client.rs:668-684 | the decision is the same for all four orderings of the two chains |
| `Watcher.SkippingIsHarmless` | bin/pck-cert-tool/src/main.rs:536-549 | skipping seen resource versions leaves the same directory as processing every event, for every event sequence |
| `Watcher.FileIsLastValid` | bin/pck-cert-tool/src/main.rs:434-456 | the cache file is the last valid blob delivered, or as it was when there was none; the gate of an empty directory opens exactly when a valid blob has been delivered |
| `Watcher.SkippedIffSameVersion` | bin/pck-cert-tool/src/main.rs:534-554 | after any history a secret is skipped exactly when it has the version of the delivery before it; otherwise a valid blob goes to the file, and stream errors change nothing |
| `Watcher.KeptVersionIsLast` | bin/pck-cert-tool/src/main.rs:511-549 | the version kept is that of the last secret delivered, valid or not |
| `Watcher.OfferedIs` | bin/pck-cert-tool/src/main.rs:440-453 | what a secret offers is its field `certificate`, if that is the encoding of some blob |
| `Watcher.ValidStaysValid` | bin/pck-cert-tool/src/main.rs:450-453 | invalid content never replaces a valid file, whatever the versions |
| `Watcher.ReusedVersionIsMissed` | bin/pck-cert-tool/src/main.rs:537-545 | without the guarantee on versions a change can be missed |
| `Watcher.WatchWritesAll` | bin/pck-cert-tool/src/main.rs:506-549 | the inductive form: writing any secret of the version last seen again would change nothing |
| `Watcher.CertificateWatcher.WriteCertificateFromSecret` | bin/pck-cert-tool/src/main.rs:434-456 | writes the blob exactly when it is one, to the cache file only |
| `Watcher.CertificateWatcher.InitialRead` | bin/pck-cert-tool/src/main.rs:504-516 | the initial read counts as having seen its version |
| `Watcher.CertificateWatcher.Handle` | bin/pck-cert-tool/src/main.rs:534-554 | one event |
| `Watcher.CertificateWatcher.WatchCertificates` | bin/pck-cert-tool/src/main.rs:483-569 | the initial read and the event loop compute the watcher's state |
| `Operator.SkipIsHarmless` | bin/operator/src/tdx_quote_generation_service/controller.rs:205-272 | whenever a dirty check skips the patch, applying it would change nothing but the transition time |
| `Operator.SkipIsHarmlessIffReported` | bin/operator/src/tdx_quote_generation_service/controller.rs:206-235 | whatever is stored, by whomever: a skipped patch would have changed only the transition time if and only if the one stored condition reports the outcome for this generation |
| `Operator.SkippedExactly` | bin/operator/src/tdx_quote_generation_service/controller.rs:205-235 | for any stored status, what of the patch has to be stored already for it to be skipped, case by case |
| `Operator.StaleMessageIsNotRepaired` | bin/operator/src/tdx_quote_generation_service/controller.rs:216-232 | a stored status for which it would have changed more: a stale message is not repaired |
| `Operator.WriteKeeps` | bin/operator/src/tdx_quote_generation_service/controller.rs:234-268 | every write, and so every run, keeps the relation between the stored condition and the stored counters, readiness and generation |
| `Operator.AlwaysWriteEffect` | bin/operator/src/tdx_quote_generation_service/controller.rs:257-268 | what the merge patch makes of any stored status: a success replaces all of it, an error keeps counters and deployment |
| `Operator.StoredServices` | bin/operator/src/tdx_quote_generation_service/controller.rs:152-214 | what a success stores: names and counts as observed, zeros without a DaemonSet status, and the Deployment as up if and only if it was found with replicas, all of them ready; a failed lookup counts as not up |
| `Operator.StoredReadiness` | bin/operator/src/tdx_quote_generation_service/controller.rs:190-255 | with it the condition: ready if and only if there are DaemonSet pods, all ready, and the Deployment is up where one is used; and which of the four messages goes with which case |
| `Operator.StoredError` | bin/operator/src/tdx_quote_generation_service/controller.rs:609-642 | what an error stores: a condition that is not ready; all else but the generation stays |
| `Operator.StoredMessage` | bin/operator/src/tdx_quote_generation_service/controller.rs:661-692 | with the error in full or its first 1024 characters, or the name of the older instance |
| `Operator.SuccessPatchIs` | bin/operator/src/tdx_quote_generation_service/controller.rs:257-268 | every member of a success patch by its name, with 0 for missing counters and null for what is not used |
| `Operator.PatchConditionIs` | bin/operator/src/tdx_quote_generation_service/controller.rs:248-268 | the condition in every patch is the one the write stores |
| `Operator.GuardedRefinesAlways` | bin/operator/src/tdx_quote_generation_service/controller.rs:184-272 | over every run mixing success, error and superseded outcomes, the guarded writer and one that patches every time store the same but for transition times |
| `OperatorLoop.WriteSettles` | bin/operator/src/tdx_quote_generation_service/controller.rs:657-682 | right after a reconcile the same observation is not written again |
| `OperatorLoop.WritesIffChanged` | bin/operator/src/tdx_quote_generation_service/controller.rs:206-235 | the next reconcile patches if and only if its observation differs |
| `OperatorLoop.PatchesAreChanges` | bin/operator/src/tdx_quote_generation_service/controller.rs:206-272 | patches in a run are exactly the changes of the observed tuple between consecutive reconciles, plus one if the first finds something new |
| `OperatorLoop.SettlesIffSingle` | bin/operator/src/tdx_quote_generation_service/controller.rs:131-140 | an outcome settles if and only if it is not that of a superseded instance |
| `OperatorLoop.SupersededPatchesEveryTime` | bin/operator/src/tdx_quote_generation_service/controller.rs:131-140 | a superseded instance patches at every reconcile |
| `OperatorLoop.TransitionTimeIsPatchTime` | bin/operator/src/tdx_quote_generation_service/controller.rs:253-253 | the stored transition time is that of the last patch, whether or not the status flipped |
| `OperatorLoop.TimeMovesWithoutFlip` | bin/operator/src/tdx_quote_generation_service/controller.rs:206-214 | two observations, neither ready, with different counts: the status stays False and the transition time moves |
| `OperatorLoop.Resource.UpdateStatus` | bin/operator/src/tdx_quote_generation_service/controller.rs:609-642 | sends the condition patch |
| `OperatorLoop.Resource.HasServiceCondition` | bin/operator/src/tdx_quote_generation_service/controller.rs:216-232 | the search through the stored conditions |
| `OperatorLoop.Resource.ReportServices` | bin/operator/src/tdx_quote_generation_service/controller.rs:184-272 | the success path of `reconcile_resource` is the guarded writer |
| `OperatorLoop.Resource.ReportReconcileError` | bin/operator/src/tdx_quote_generation_service/controller.rs:661-697 | so is the error path |
| `OperatorLoop.Resource.ReconcileOnce` | bin/operator/src/tdx_quote_generation_service/controller.rs:106-142 | one reconcile changes status and patch count as the writer's specification says |
| `OperatorStatus.StatusRoundTrip` | bin/operator/src/tdx_quote_generation_service/types.rs:107-142 | the stored JSON object is read as the status it was written for |
| `OperatorStatus.LiteralMembers` | bin/operator/src/tdx_quote_generation_service/controller.rs:248-255 | every member of the condition in a patch by its name |
| `OperatorStatus.ConditionPatchEffect` | bin/operator/src/tdx_quote_generation_service/controller.rs:609-642 | an error patch replaces conditions and generation and keeps the rest |
| `OperatorStatus.FullPatchEffect` | bin/operator/src/tdx_quote_generation_service/controller.rs:257-271 | a success patch leaves exactly its status, whatever was stored |
| `MergePatch.MergeMember` | bin/operator/src/tdx_quote_generation_service/controller.rs:270-271 | JSON merge patch member by member (section 2 of RFC 7396): null removes, objects merge, anything else replaces |
| `Conditions.ConditionList.SetCondition` | bin/operator/src/tdx_quote_generation_service/status.rs:158-173 | replaces the first condition of the type in place, keeping its time if the status is equal, or appends |
| `Conditions.ConditionList.RemoveCondition` | bin/operator/src/tdx_quote_generation_service/status.rs:176-179 | keeps exactly the conditions of other types, in order |
| `Conditions.ConditionList.GetCondition` | bin/operator/src/tdx_quote_generation_service/status.rs:141-145 | the first condition of the type, if any |
| `Conditions.GetAfterSet` | bin/operator/src/tdx_quote_generation_service/status.rs:158-173 | what a lookup of any type finds after a set |
| `Conditions.GetAfterRemove` | bin/operator/src/tdx_quote_generation_service/status.rs:176-179 | what a lookup of any type finds after a removal |
| `Conditions.SetKeepsUnique` | bin/operator/src/tdx_quote_generation_service/status.rs:161-172 | types stay unique, the list grows by at most one, other conditions stay in place |
| `Conditions.UniqueForever` | bin/operator/src/tdx_quote_generation_service/status.rs:158-179 | types stay unique through any sequence of changes |
| `Conditions.ChangeRefinesMap` | bin/operator/src/tdx_quote_generation_service/status.rs:158-179 | one change of the list refines one change of a map from type to condition |
| `Conditions.HistoryRefinesMap` | bin/operator/src/tdx_quote_generation_service/status.rs:158-179 | so does any sequence of changes |
| `Conditions.TransitionTimeIsRunStart` | bin/operator/src/tdx_quote_generation_service/status.rs:154-169 | after any sequence of changes a stored condition is the last one set, with the transition time of the first set in the current unbroken run of equal-status sets of its type |
| `Conditions.TransitionTimeFromList` | bin/operator/src/tdx_quote_generation_service/status.rs:154-179 | the same from any duplicate-free list |
| `NodeSelector.ParseNodeSelectors` | bin/operator/src/tdx_quote_generation_service/controller.rs:324-351 | the loop computes the outcome of taking the selectors one at a time |
| `NodeSelector.SplitSelector` | bin/operator/src/tdx_quote_generation_service/controller.rs:328-341 | splits at the first `=`, trims, and refuses a missing `=` or an empty part |
| `NodeSelector.ParseExact` | bin/operator/src/tdx_quote_generation_service/controller.rs:324-351 | a parsed list has one map entry per selector; an error names the first selector that breaks this |
| `NodeSelector.ParsesExactly` | bin/operator/src/tdx_quote_generation_service/controller.rs:324-351 | the parser returns a map if and only if every selector parses, keys are distinct and the map holds exactly them |
| `NodeSelector.PartsExact` | bin/operator/src/tdx_quote_generation_service/controller.rs:328-341 | a selector is white space, its key, white space, the first equals sign, white space, its value and white space |
| `NodeSelector.SpacesAre` | bin/operator/src/tdx_quote_generation_service/controller.rs:334-335 | the white space taken off is the 25 code points of the Unicode property |
| `NodeSelector.AdmittedParses` | bin/operator/src/tdx_quote_generation_service/types.rs:41-47 | every list the admission rules accept parses, with one entry per element; joining the entries with `=` gives back the elements |
| `NodeSelector.EntrySplits` | bin/operator/src/tdx_quote_generation_service/types.rs:93-102 | an entry in the rule's language splits at its only `=` into a key and a value that trimming leaves alone |
| `NodeSelector.AdmittedIffLabel` | bin/operator/src/tdx_quote_generation_service/types.rs:89-103 | the admission rule in words: a name, possibly after a DNS name of at most 253 characters and a slash, then `=` and a value; the length limit of 381 follows |
| `NodeSelector.LabelsLanguage` | bin/operator/src/tdx_quote_generation_service/types.rs:97-97 | its prefix is one or more lower-case labels of 1 to 63 characters, separated by dots |
| `NodeSelector.TrimExact` | bin/operator/src/tdx_quote_generation_service/controller.rs:334-335 | trimming takes off white space at both ends and nothing else |
| `NodeSelector.LabelValueLanguage` | bin/pck-cert-tool/src/main.rs:316-329 | the label-value check accepts exactly the language of the value part of the admission rule |
| `NodeSelector.NameLanguage` | bin/operator/src/tdx_quote_generation_service/types.rs:97-97 | that language is 1 to 63 label characters with alphanumeric ends |
| `External.PodSpec.RewriteForExternal` | bin/operator/src/tdx_quote_generation_service/controller.rs:421-449 | the in-place rewrite computes its specification, errors and panic included |
| `External.PodSpec.UseNodeNameAsLiteralId` | bin/operator/src/tdx_quote_generation_service/controller.rs:358-388 | rewrites the first `pck-certs-watcher`, or reports what is missing |
| `External.MountIntegrity` | bin/operator/src/tdx_quote_generation_service/controller.rs:421-449 | exactly when all mounts still resolve afterwards |
| `External.WellFormedStaysIntact` | bin/operator/src/tdx_quote_generation_service/controller.rs:421-449 | they do for every template with unique names and resolving mounts in which only `platform-registration` mounts `efivars` and only it and `pck-certs-watcher` mount `platform-info` |
| `External.RewriteOutcome` | bin/operator/src/tdx_quote_generation_service/controller.rs:359-380 | exactly when the rewrite succeeds, fails, and panics (`-i` is the last word) |
| `External.RewriteEffect` | bin/operator/src/tdx_quote_generation_service/controller.rs:421-439 | exactly the init containers not named `platform-registration` remain, in their order and unchanged but for the first `pck-certs-watcher`, of whose command exactly two adjacent words change; other containers stay |
| `External.RewriteKeepsVolumes` | bin/operator/src/tdx_quote_generation_service/controller.rs:431-443 | exactly the volumes `efivars` and `platform-info` go; the others stay, in their order and unchanged |
| `External.RewriteKeepsMounts` | bin/operator/src/tdx_quote_generation_service/controller.rs:382-385 | exactly the mounts of `platform-info` go from the watcher; the others stay, in their order and unchanged |
| `Subsequences.FilterSelects` | bin/operator/src/tdx_quote_generation_service/controller.rs:427-434 | `retain` keeps order and multiplicity: it selects exactly the positions of the elements kept |
| `Subsequences.Retain` | bin/operator/src/tdx_quote_generation_service/controller.rs:427-434 | the loop form of `retain` |
| `External.TemplateIsRewritten` | bin/operator/templates/daemonset.yaml:19-186 | the shipped template is of that shape and is rewritten without error |
## Left out

- Cryptography, X.509, PEM, DER, JSON, YAML, base64 and URL-encoding libraries: parameters or datatypes.
- HTTP transport, its timeouts and its retries of connection errors and 5xx: a request is one step with one answer.
- Requests count logically: a retry inside the HTTP client is not counted by `AtMostSixRequests`.
- The link from a usable answer in the registrar to the checks in `Certs`: any success that passes them is `Usable`.
- kube-rs scheduling and watch streams beyond the assumptions above; shutdown on SIGTERM.
- Server-side apply of `stringData`: that a platform manifest omitted by `get-platforms` is preserved, as
  `bin/pck-cert-tool/src/main.rs:361-377` expects, is not part of this model.
- Server-side apply on `-pck` Secrets: the applied Secret replaces what the registrar wrote before; its labels are not modelled.
- RegistrarIndex.IndexHoldsLastEntries: the state machine has no other writer of the index; `PiidIndex.WriteKeepsOwnKeys` covers one.
- GetPlatforms.ProducerMeetsConsumer: starts from the printed members; that the text determines them is `PrintedLineDetermines`, a JSON parser is not part of this model.
- RegistrarContext.RegistrarContext.ProcessPlatformSecret: runs one reconcile without interference; interleavings are covered by the state machine's theorems.
- CacheBlob.ParseCacheBlob: which of its errors a malformed blob gives is stated for trailing bytes only.
- Certs.DecodeAndValidateIssuerChain: which of its errors a bad chain gives is not stated.
- Pause.RetryAfterExact: white space is that of ASCII, which is all a header value read as text can hold.
- Operator: stale reads, failed status patches, and the choice of the oldest instance (the outcome says which it is).
- Replica counts are unbounded integers: no arithmetic is done on them.
- Watcher: a crash or error half way through writing the cache file.
- NodeSelector: patterns are modelled as regular expressions over characters, not as text in CEL syntax.
- External: fields of containers and volumes that the rewrite never reads are one opaque text.
- Reading the ID file, the ID sources of `get-certificates`, sockets, tracing, command lines and environment variables.
- SGX calls of the C tool other than its printer; its fixed buffer sizes are preconditions of `ProducerMeetsConsumer`.
- Finalizer, owner references, image overrides, the Deployment template, Helm charts, RBAC and the OLM bundle.
