# Fincrypt: verified model

Fincrypt is a personal-finance app whose server only ever sees ciphertext. Devices
encrypt records under keys derived from a data key (DEK), queue them in a durable outbox,
push them to the server, pull the changes of other devices and merge them into a local
cache. This project models the parts of it that carry guarantees and proves those
guarantees for every input, every interleaving and every run.

## What is modelled

- **The server's sync store** (`SyncStore`, `SyncStoreLaws`, `DeltaPull`): the upsert loop,
  the tombstoning delete and the delta pull, with the three tables as one map from
  (table, id) to row. Chat rows are first-writer-wins and have no tombstone column.
- **The endpoints around it** (`SyncHandler`, `SyncEndpoint`): validate-all-then-push, the
  reply with whole-second timestamps, the delete statuses as the client's fetch reads them.
- **The device** (`ClientCache`, `Engine`): outbox, merge rule, string keys of the meta
  table, and one call of `flush`.
- **The protocol** (`SyncMachine`, `FlushRun`, `CacheRefinement`, `Boundaries`): any number
  of devices and overlapping flushes, one await at a time, with crashes, lost requests and
  replies, and requests that arrive late or twice; and runs at the edge of what the cache
  theorem assumes.
- **Codecs** (`Base64`, `Json`, `EnvelopeCodec`, `Timestamps`) and the **data path** from
  `saveRecord` to `loadWorking` (`DataPath`).
- **Keys** (`Aad`, `KeyLifecycle`): the associated-data grammar, and registration,
  passphrase change, recovery and rotation under ideal cryptography.
- **Two smaller machines and one fold**: the vault's compare-and-swap (`VaultMachine`), the
  migration runner (`Migrations`), the summaries (`Summaries`, `SummaryLaws`), with stable
  sorting in `Sorting`.

Timestamps are integers in microseconds with 0 as Go's zero time; amounts are exact reals.
A SQL statement or transaction is one atomic step.

## Where the code and its documentation differ

The model follows the code.

- The pull sorts by its third column, the blob; the comment above it promises
  `(updated_at, id)`. `DeltaPull` takes the order as a parameter: a chain of pages in
  either order is complete exactly when no page break drops a row, in the documented order
  exactly when no tie in `updated_at` straddles a break, and `AsWrittenLosesARow` gives
  tables for which the order as written loses a row without any tie.
- A passphrase change re-issues the recovery wrap under the new passphrase's key. The
  documented "phrase recovers the DEK" holds exactly on the runs without such a change
  (`PhraseRecoversIffNeverChanged`).
- "Blob zeroed on delete" holds until a newer push: the upsert does not look at
  `deleted_at` (`ZeroedBlobSurvivesIff`). Pulls still report the tombstone.
- A successful delete answers 204 without a body, which the client's fetch wrapper cannot
  read as JSON, so a queued delete is never cleared (`DeletesStayQueued`). An empty page is
  sent as `null`, over which the client's loop throws (`Engine.Flush`).
- The header of `web/src/sync/merge.ts` promises the server's rules on the device.  The
  server compares exact instants, the device whole seconds: a device that cached one
  version of a record takes a newer one exactly when that lies in a later second
  (`NewerVersionIsTakenIff`), and two quick edits on one device, both flushed with success,
  leave the first in its cache (`SecondEditIsCachedIff`).
- The cursor is the greatest `updated_at` of a page, and `updated_at` is the writer's
  clock. An edit made before another device's cursor and sent after it is never pulled by
  that device (`LateCommitIsCachedIff`).
- Pushes converge whatever their order, and so does one dominating delete, but a push and a
  delete in general do not (`PushAndDeleteCommuteIff`).
- A sync whose pull fails answers 500 with its batch already in the tables
  (`SyncEndpoint.HandleSync`); sending it again is harmless (`RetryAfterErrorIsSafe`).
- `localeCompare` treats canonically equivalent strings as equal. Two such categories in
  one month come out in the order of the rows, so the summary depends on row order exactly
  then, or when malformed dates make two pairs share a key
  (`CategoryMonthIgnoresRowOrderIff`, `EquivalentSpellingsTie`, `MalformedDatesMerge`).
- The comment on `web/src/crypto/lifecycle.ts:65` says both wraps describe the same DEK:
  they do, but under one key (`RecoveryWrapHasOneKey`).

## Assumptions

- Record ids are not shared between users where a theorem speaks of one user's rows; the
  parameter `home` names the one user of each id. The upsert's conflict clause does not
  compare `user_id`, and the model keeps that.
- `CacheRefinesServer` assumes, for one device: flushes that do not overlap, pages that are
  not truncated, commits newer than the newest instant a reply has named, and different
  whole seconds for successive live versions of a record. `Boundaries` shows for the last
  two that the conclusion fails exactly where they do.
- The laws of the summaries ask of `localeCompare` only that it is a total preorder. With
  months that tie and differ the comparator of `byCategoryMonth` is not one, and JavaScript
  leaves the order open; the model then sorts by insertion.
- SHA-256, Unicode normalization, the BIP39 word list, `time.Parse`, `localeCompare` and the
  AEAD of the data path are parameters. `DataPath` asks of the AEAD only that opening
  inverts sealing; `KeyLifecycle` uses free constructors instead.

## Model

| member | source | states |
|---|---|---|
| SyncStore.Store.PushEnvelopes | internal/db/sync.go:61-155 | a batch is committed whole or rolled back whole; on success each outcome reports the envelope stored right after its push, and whether it was the pushed one |
| SyncStore.Store.DeleteRecord | internal/db/sync.go:160-178 | applied exactly to the user's own live row at most as new as the delete; the row becomes a zeroed tombstone at that instant; chat deletes are errors that change nothing |
| SyncStore.Store.PullChanges | internal/db/sync.go:183-230 | every scanned row is reported as the change its stored row stands for, in order, and the cursor is the greatest updated_at of the page |
| SyncStore.MaxTs | internal/db/sync.go:188-224 | an upper bound of the page's instants that one of them attains |
| SyncStoreLaws.WinnerIsTheStoredRow | internal/db/sync.go:27-35 | the pusher is told the row as it now stands, so it learns the winner even when its envelope lost |
| SyncStoreLaws.RunEvolves | internal/db/sync.go:77-138 | over any run of pushes and deletes rows persist, keep their owner, never go back in time, keep a tombstone's instant; chat rows never change |
| SyncStoreLaws.ReplayedBatchChangesNothing | internal/db/sync.go:68-155 | a committed batch sent again at any later point of any run leaves the tables as they are |
| SyncStoreLaws.ReplayedDeleteChangesNothing | internal/db/sync.go:165-173 | so does an applied delete |
| SyncStoreLaws.DeliveryIsLww | internal/db/sync.go:68-119 | after any batches each transaction or account row carries the greatest ts sent to it, the stored row winning ties, with its tombstone untouched |
| SyncStoreLaws.DeliveryOrderIsIrrelevant | internal/db/sync.go:68-119 | the same multiset of pushes in any order and any split into batches gives the same tables |
| SyncStoreLaws.ChatConvergesIffEqual | internal/db/sync.go:120-138 | chat does not converge: two pushes to a fresh chat id commute exactly when they are equal |
| SyncStoreLaws.TombstonesArePermanent | internal/db/sync.go:165-173 | whatever follows, a tombstoned row is reported as a tombstone with its first instant |
| SyncStoreLaws.ZeroedBlobSurvivesIff | internal/db/sync.go:82-86 | a tombstone's zeroed blob survives a push exactly when the push is not newer or is itself the zero byte |
| SyncStoreLaws.PushAndDeleteCommuteIff | internal/db/sync.go:82-173 | a push and a delete of one record give the same tables in both orders exactly when the delete's ts does not fall from the stored row up to before the push; without a row, when the delete is older than the push |
| SyncStoreLaws.DominatingDeleteWins | internal/db/sync.go:157-177 | one delete at least as new as every push to its record, once the row exists, leaves the same zeroed tombstone wherever it falls among them |
| DeltaPull.EffectiveLimit | internal/db/sync.go:184-186 | limits from 1 to 1000 are kept, all others become 500 |
| DeltaPull.ChainIsCompleteIff | internal/db/sync.go:190-229 | in any row order, resuming pulls report every newer row exactly when each page break leaves out only rows newer than the whole page |
| DeltaPull.DocumentedChainIsCompleteIff | internal/db/sync.go:180-182 | in the documented order, exactly when no tie in updated_at straddles a page break |
| DeltaPull.ChainReportsOnce | internal/db/sync.go:190-229 | no two pages of a chain report the same row |
| DeltaPull.ChainTerminates | internal/db/sync.go:190-229 | a chain of non-empty pages is no longer than the number of newer rows |
| DeltaPull.OnePageSuffices | internal/db/sync.go:190-229 | when all newer rows fit the limit one pull reports them in any order and the next is empty |
| DeltaPull.AsWrittenLosesARow | internal/db/sync.go:199-200 | tables without a tie at the break for which a truncated page in the written order loses a row for good |
| SyncHandler.BuildReply | internal/api/sync.go:132-155 | each change becomes its wire form, with the associated data rebuilt and instants cut to seconds; the cursor is exact and absent only for the zero time |
| SyncHandler.DeleteReplies | internal/api/sync.go:182-228 | 204 exactly when the tables changed, and no reply of the endpoint lets the client's fetch return |
| SyncEndpoint.HandleSync | internal/api/sync.go:44-158 | never a partial batch: the tables hold the whole batch exactly when the body was accepted and the push committed; 400 exactly for a refused body, with the tables alone; 500 with the batch in them when the pull or the commit's acknowledgement failed; a 200 returns the page read after the batch |
| SyncEndpoint.RetryAfterErrorIsSafe | internal/api/sync.go:123-137 | once committed, the same body sent again at any later point changes nothing |
| ClientCache.OldestSkipsNothing | web/src/sync/outbox.ts:47-50 | a queued row is left for later only by a full batch of older ones |
| ClientCache.DeviceCache.Enqueue | web/src/sync/outbox.ts:17-29 | the envelope is added under a number never used before, and nothing else changes |
| ClientCache.DeviceCache.EnqueueDelete | web/src/sync/outbox.ts:31-40 | the delete is queued and an existing cache row only flagged |
| ClientCache.DeviceCache.Drain | web/src/sync/outbox.ts:47-50 | the oldest rows in FIFO order, and nothing is skipped |
| ClientCache.DeviceCache.RemoveFlushed | web/src/sync/outbox.ts:52-55 | exactly the named rows leave the outbox |
| ClientCache.PendingDeletes | web/src/sync/outbox.ts:57-69 | lists the metas under the delete prefix, one each and in order, with the parts of their keys |
| ClientCache.QueueRoundTripIff | web/src/sync/outbox.ts:31-69 | a whole queue of deletes is listed back as it was written exactly when no id has a colon |
| ClientCache.DeleteKeyRoundTripIff | web/src/sync/outbox.ts:65-66 | a queued delete is read back as written exactly when its id has no colon |
| ClientCache.TypeKeyIsInjective | web/src/sync/outbox.ts:42-45 | cache keys name one (type, record id) pair each |
| ClientCache.DeviceCache.MergeChange | web/src/sync/merge.ts:27-50 | a tombstone removes the cached and the working row; an envelope replaces only a strictly older row |
| ClientCache.DeviceCache.MergePage | web/src/sync/engine.ts:38-40 | the merge loop applies a page in order, and exactly the working rows a tombstone names go |
| ClientCache.PageOrderIsIrrelevant | web/src/sync/merge.ts:27-50 | a page may be merged in any order into any cache |
| ClientCache.PageRepeatIsIrrelevant | web/src/sync/merge.ts:27-50 | merging it again in any order changes nothing |
| Engine.Flush | web/src/sync/engine.ts:25-93 | reports success exactly when request and non-empty reply got through; then exactly the batch has left the outbox after the page was merged; on failure the device is as it was |
| Engine.FlushDeletes | web/src/sync/engine.ts:55-68 | every queued delete is sent once and every one stays queued |
| SyncMachine.RunKeepsInv | web/src/sync/engine.ts:25-53 | in every reachable state a batch past its commit is held by the server and names the outbox rows it was drained from |
| SyncMachine.NoWriteIsLost | web/src/sync/engine.ts:25-53 | whatever overlaps, is lost, arrives late or crashes, every envelope ever enqueued is still in its outbox or the server holds its row at that ts or later |
| SyncMachine.HeldByItsOwner | web/src/sync/engine.ts:25-53 | where ids are not shared, the row that holds it is one of the user who enqueued it |
| SyncMachine.CommittedBatchReplaysHarmlessly | web/src/sync/engine.ts:44-46 | a flight's committed batch can be sent again at any later point of any run without effect |
| SyncMachine.DeletesStayQueued | web/src/sync/engine.ts:55-68 | no run ever clears a queued delete |
| FlushRun.FlushCanFinish | web/src/sync/engine.ts:25-53 | from any state of the machine, an accepted push with a non-empty page can run to success with the tables one call of flush promises |
| CacheRefinement.MergeSettlesIff | web/src/sync/merge.ts:38-49 | merging a row's own change brings a cache entry up to date exactly when it trails the row or agrees already |
| CacheRefinement.NewerVersionIsTakenIff | web/src/sync/merge.ts:1-49 | a cached version gives way to a newer one exactly when that lies in a later whole second or carries the same blob; within one second the merge changes nothing |
| Boundaries.SecondEditIsCachedIff | web/src/sync/merge.ts:38-49 | a run of two edits and two successful flushes ends with the live image in the cache exactly when the edits lie in different whole seconds or do not differ |
| Boundaries.LateCommitIsCachedIff | internal/db/sync.go:190-224 | a run in which another device commits between two successful flushes ends with the live image in the cache exactly when that commit is newer than the cursor |
| CacheRefinement.RunKeepsCacheInv | web/src/sync/engine.ts:33-46 | between and during flushes, interrupted ones included, cached rows up to the cursor mirror the server and newer ones are at worst behind it |
| CacheRefinement.CacheRefinesServer | web/src/sync/merge.ts:27-50 | whenever a flush reports success the cache is the image of the user's live server rows its pull read, apart from records with a delete queued |
| Timestamps.StringOrderIsTimeOrder | web/src/sync/merge.ts:39 | formatted dates compare as strings exactly as dates |
| Timestamps.StampsCompareAsSeconds | internal/api/sync.go:149 | the reply timestamps of two instants compare as strings exactly as their whole seconds do |
| Base64.ToB64 | web/src/crypto/b64.ts:7-11 | the padded standard form of section 4 of RFC 4648 |
| Base64.FromB64 | web/src/crypto/b64.ts:14-20 | the forgiving decoding of the alphabet-normalized string, filled in place |
| Base64.FromB64ReadsBothForms | web/src/crypto/b64.ts:13-20 | bytes come back from their padded standard and from their unpadded URL form |
| Base64.StrictAcceptsExactlyCanonical | internal/api/envelope.go:52-65 | the strict decoder yields b exactly for the padded encoding of b |
| Base64.FlexibleReadsBothForms | internal/api/envelope.go:198-205 | both emitted forms decode to their bytes |
| Base64.NoAmbiguousReading | internal/api/envelope.go:198-205 | no string reads as different bytes in the two forms |
| Aad.AadIsInjective | web/src/crypto/aead.ts:23-37 | one string per (user, type, record) of bar-free parts |
| Aad.RecordAadIsWrapAadIff | web/src/crypto/keyHierarchy.ts:61-62 | a record string equals a wrap string only for a wrap user that itself spells user, bar, type |
| Aad.RecordAadIsNeverWrapAad | web/src/crypto/keyHierarchy.ts:61-62 | never, for wrap users without a bar |
| Aad.WrapAadsAreDistinct | web/src/crypto/keyHierarchy.ts:61-62 | wrap strings differ whenever the kind or the user does |
| Json.ObjectRoundTrip | web/src/crypto/envelope.ts:61-63 | the printed object parses to its fields for arbitrary names and texts, with the escaping of section 7 of RFC 8259 |
| EnvelopeCodec.SerializeEnvelope | web/src/crypto/envelope.ts:30-65 | the loop prints the six fields in the fixed order |
| EnvelopeCodec.SerializeIsInjective | web/src/crypto/envelope.ts:30-65 | different envelopes never print alike |
| EnvelopeCodec.ParseInvertsSerializeIff | web/src/crypto/envelope.ts:70-114 | parsing the print gives the envelope back exactly for well-formed ones, and is refused otherwise |
| EnvelopeCodec.RejectDuplicateKeys | internal/api/envelope.go:165-196 | accepts exactly the member lists without a repeated name |
| EnvelopeCodec.StrictAcceptsIff | internal/api/envelope.go:139-163 | accepted exactly when the members are the six names, each once, in any order, with no value of the wrong shape; which refusal each other list gets |
| EnvelopeCodec.StrictReadsPrinted | internal/api/envelope.go:142-163 | the server reads the client's print back as the same six strings |
| DataPath.EncryptWithSubkey | web/src/domain/store.ts:122-146 | the buffer filled in place is the nonce followed by the ciphertext |
| DataPath.DataLayer.SaveRecord | web/src/domain/store.ts:21-59 | the plaintext enters the working set and the sealed envelope the outbox, or nothing is written |
| DataPath.DataLayer.LoadWorking | web/src/domain/store.ts:80-118 | after the changes the preceding flush merged, every unflagged cached row of the type is opened into the working set, whose rows of the type are returned; the first row that does not open fails the call with the rows before it already there |
| DataPath.SavedEnvelopeIsAccepted | internal/api/envelope.go:84-119 | every envelope saveRecord builds for canonical ids and a ts within tolerance passes the strict parser and all checks, and becomes the push of its own blob |
| DataPath.SaveThenLoad | web/src/domain/store.ts:21-118 | saved on one device, stored, and pulled and merged on any device of the user while its version stands, the version is cached exactly where the cache had none, one of an earlier second or this one; cached, it opens to the original plaintext |
| KeyLifecycle.AcceptedIff | web/src/crypto/lifecycle.ts:50-118 | which changes and rotations are accepted after any history, from the current secrets alone |
| KeyLifecycle.RunKeepsWraps | web/src/crypto/lifecycle.ts:65-80 | after any history both wraps hold the registration DEK |
| KeyLifecycle.PassphraseAloneUnlocks | web/src/crypto/lifecycle.ts:50-81 | after any history the current passphrase and no other unlocks, to the registration DEK, and every earlier record still opens |
| KeyLifecycle.RecoveryWrapHasOneKey | web/src/crypto/lifecycle.ts:65-118 | the recovery wrap opens under exactly one key: the latest phrase's, or after a passphrase change the passphrase's |
| KeyLifecycle.PhraseRecoversIffNeverChanged | web/src/crypto/lifecycle.ts:87-95 | the current phrase recovers the DEK exactly on runs without an accepted passphrase change |
| KeyLifecycle.ChangedAccountRefusesEveryPhrase | web/src/crypto/lifecycle.ts:87-118 | after such a change no phrase recovers and no rotation is accepted |
| KeyLifecycle.RecordOpensOnlyAsItself | web/src/crypto/aead.ts:1-14 | a record's ciphertext opens exactly under its own key, user, type and record id |
| KeyLifecycle.WrapOpensOnlyAsItself | web/src/crypto/keyHierarchy.ts:64-118 | a wrap opens exactly under its own key, user and kind |
| KeyLifecycle.RecordsAndWrapsNeverMix | web/src/crypto/keyHierarchy.ts:61-118 | neither ever opens as the other |
| VaultMachine.NoLostUpdates | internal/api/vault.go:93-136 | under any interleaving of statements the version counts the committed writes, and each replaced exactly the version it named |
| VaultMachine.AcceptedWritesAreDistinct | internal/api/vault.go:93-136 | two accepted writes never name the same version nor get the same answer |
| VaultMachine.VersionCountsAcceptedPuts | internal/api/vault.go:93-136 | the accepted PUTs are never more than the version, and as many exactly when every committed write was acknowledged |
| VaultMachine.VersionIsAcceptedPuts | internal/api/vault.go:93-136 | so the version is their number on every run on which no failing statement has committed |
| Migrations.Database.Migrate | internal/db/migrate.go:24-95 | reading the directory and running the loop leave the database and the result that the step-by-step reading over the sorted names gives |
| Migrations.ScriptNamesAscend | internal/db/migrate.go:30-36 | the names run through are the directory's .sql files, each once, ascending |
| Migrations.ExecutedIsAlwaysAPrefix | internal/db/migrate.go:55-94 | over any boots, failing or crashing anywhere, the executed scripts are a prefix of the sorted names, ran in ascending order, and come before every script still to run |
| Migrations.EachScriptRunsOnce | internal/db/migrate.go:63-75 | no script is executed twice |
| Migrations.NextRunSucceedsIff | internal/db/migrate.go:24-95 | a run succeeds exactly without faults and with every applied file unmodified, and success means all files are applied |
| Migrations.EditedFileStopsEveryRun | internal/db/migrate.go:67-72 | an edited applied file makes every run fail with nothing new executed |
| Migrations.FurtherRunChangesNothing | internal/db/migrate.go:67-75 | after a success a further run on the same files changes nothing |
| Summaries.ByCategoryMonth | web/src/domain/summaries.ts:19-35 | the values are one entry per distinct month and category with that group's sums exactly when no two pairs share a key, as with ISO dates; sorted where months tie only when equal |
| Summaries.GroupsByPairIff | web/src/domain/summaries.ts:19-31 | the string key groups by month and category exactly when no two pairs of the rows share it |
| Summaries.MonthlyTotals | web/src/domain/summaries.ts:46-60 | one entry per distinct month with its sums and net, sorted |
| Summaries.ComputeBudgetStatus | web/src/domain/summaries.ts:78-101 | one line per budget with the month's spending in its category, greatest first, equal ones in the order of the budgets |
| Summaries.KeysNamePairs | web/src/domain/summaries.ts:22-23 | with ISO dates the string key names one month and category |
| Summaries.MalformedDatesMerge | web/src/domain/summaries.ts:22-31 | without them two pairs can come out as one entry, named after the row that came first |
| SummaryLaws.CategoryMonthIgnoresRowOrderIff | web/src/domain/summaries.ts:19-35 | the result is the same for every order of the rows exactly when no two pairs share a key and no two entries tie |
| SummaryLaws.TiedCategoriesKeepRowOrder | web/src/domain/summaries.ts:32-34 | two categories of one month that tie come out in the order they went in |
| SummaryLaws.EquivalentSpellingsTie | web/src/domain/summaries.ts:32-34 | two spellings of one word, which localeCompare must treat as equal, make the result depend on the order of the rows |
| SummaryLaws.MonthlyTotalsIgnoreRowOrderIff | web/src/domain/summaries.ts:46-60 | the totals are the same for every order of the rows exactly when different months do not tie |
| SummaryLaws.BudgetIgnoresRowOrder | web/src/domain/summaries.ts:78-101 | the budget lines, ties included, do not depend on the order of the rows |
| SummaryLaws.CategoriesAddUpToMonths | web/src/domain/summaries.ts:18-60 | a month's categories add up to its totals |
| SummaryLaws.NetsAddUpToAmounts | web/src/domain/summaries.ts:45-60 | the monthly nets add up to the sum of all amounts |
| SummaryLaws.BudgetAgreesWithGroups | web/src/domain/summaries.ts:83-91 | a budget's actual is the expense grouped under its category, the uncategorized line also taking the rows without one |

## Left out

- HTTP routing, middleware, cookies, rate limits, audit rows, attachments, sessions and the React pages: plumbing over libraries.
- OPAQUE, Argon2id, HKDF, BIP39 and AES-GCM: foreign code, here free constructors or parameters.
- `tx_date`, `archived_at`, `transfer_group` and cascade deletes: no part in the sync guarantees.
- Liveness of the outbox and of the delete queue: the code does not promise it, as the section on differences says.
- The timer and backoff of `web/src/sync/engine.ts:95-134`: they only decide when a flush starts, and the machine starts one at any time.
- Nanosecond input timestamps: Postgres keeps microseconds, and so does the model.
- Years beyond 9999, whose timestamps are longer.
- JSON arrays and objects as member values, and escaped surrogate pairs: both parsers refuse an envelope with the former, and neither printer emits the latter. UTF-8 is not modelled; strings are sequences of code points.
- `handleVaultGet` and the version column's 32-bit range.
- Floating-point rounding in the summaries: amounts are exact.
- SyncMachine.NoWriteIsLost: speaks of the row, not of its owner; `HeldByItsOwner` adds the owner where ids are not shared.
- Engine.Flush: takes the network's decision for the whole call; crashes between its awaits are in `SyncMachine`.
