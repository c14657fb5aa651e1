# File scanner: a Dafny model

A verification project kept beside the file scanner service (Python). It models the
asynchronous scan pipeline and proves properties of the model:

- **Encrypted downloads** (`ChunkBudget`, `Encryption`, `BatchDecryption`, `Download`,
  `ClientEncryption`, `Reissue`, `EncryptedDownload`). The streaming decryptor is a method with the
  nested buffer loops of `src/tasks.py`. It is proved to refine a batch definition (cut the
  wire, open every blob in its place, count), whatever the read boundaries. The AEAD is ideal
  and in the shape of AEAD_AES_256_GCM (section 5.2 of RFC 5116): it is a parameter, and two
  hypotheses say that what was issued opens and that nothing else does. Both are relative to
  the files issued under the key, and a lookup opener meets them together (`HypothesesMet`), so
  round trip and exactness are properties of one AEAD (`OnlyWhatWasStored`).
- **Verdicts** (`Report`, `Backends`, `Registry`, `WireFormat`). Raw engine replies are
  classified, isolated, grouped and reduced to one verdict per category, and downgraded to v1.
  The branchy reduction is proved equal to the two rules of its documentation, with the exact
  condition; and "clean", in either version, is traced back to the raw replies, with no
  assumption on the engines.
- **Jobs** (`ResultStore`, `ScanTask`, `Attempts`, `JobProtocol`, `Endpoints`, `Simulation`). One attempt, the retries,
  the store and the endpoints are methods on objects; `JobProtocol` interleaves endpoint,
  worker, clock and poller in any order and proves safety over all runs, and `Simulation`
  proves that the objects, step by step, are such a run. `Attempts` runs one attempt with its
  real parts, from the URL through session, writer and engines to the record.
- **Bounded loops** (`Jcop`, `Redirects`, `Exinstream`). Submit-and-poll under one deadline,
  the redirect chain, and length-prefixed framing.

`Wrappers` and `Sequences` hold shared datatypes and sequence lemmas. A raised exception is an
`Err`, a boolean or a named outcome. Clocks, networks, engines, resolvers and failures of the
store are parameters, different at every use. `dafny verify dfyconfig.toml` checks everything.

## What the code does that its documentation does not say

The model follows the code. Each of these is a lemma or a clause of a contract.

- The precedence rule of `ScanReport.verdicts` fails on an all-scored axis where some result
  says `malware`: the word differs exactly then, the rank exactly when none says `flagged`
  (`ReduceIsRule`, `ReduceIsRuleRank`; `ScoredMalwareIsLost` reads clean). No shipped engine
  is scored.
- So "clean" fails closed, for all raw replies, exactly unless every engine of the category is
  scored and one of them named a threat (`CleanMeansAffirmed`, `FalseMeansAffirmed`,
  `CleanExactly`; `ScoredThreatReadsClean`).
- The documented scope rule lets an advisory engine change an answer only by detecting. An
  advisory engine that detects nothing also changes it when it is the first unscored one next
  to a scored `malware`, and exactly then (`AdvisoryChangesExactly`;
  `AdvisoryCleanRevealsMalware`).
- The size-cap check of a request is flat while a report decides per category. A selection
  that passes leaves clamav deciding past its ceiling exactly when clamav is advisory, its
  whole category is, and some engine of another category is not (`SizeCapGap`,
  `SizeCapGapExists`). Categories-only requests on a deployment that boots are not affected,
  and the gap needs an engine of a second category, which no shipped builder has yet.
- The job is sent before its pending record is seeded, so a finished job can read `pending`
  until it expires: exactly when the seed is the last write to reach the store
  (`SettledPendingExactly`, `SeedLandsLast`). Seeding first would be enough
  (`SeedFirstShowsResult`).
- Keys are meant to be rotated per file, but nothing enforces it, and two files encrypted under
  one key and file id with the same number of parts have chunks that nothing tells apart. Issued
  once, acceptance is exact (`Exactness`). Re-issued, it is exact exactly when the
  issued files are closed under swapping chunks in place (`ExactIffSwapClosed`): always in one
  part (`SinglePartIsExact`), not for two files that differ in two places (`SpliceIsAccepted`,
  `SpliceExists`). With `parts` 0 the empty wire is accepted with no chunk to vouch for it.
- `_write_decrypted` validates its parameters before it takes charge of the response: a
  response is left unclosed exactly when they are refused (`WriteDecrypted`).
- The redirect loop closes every response it does not return, except exactly one whose
  `Location` cannot be joined or, on an https hop, parsed: that raises first
  (`RequestWithRedirects`; `BrokenLocationLeavesOpen` with a `Location` of `http://[`). This is
  about the loop as it is written; the session that hands it a response is environment, and
  `requests` may itself have read, closed or refused a redirect response before.
- A download's response is left unclosed by an error status, by refused parameters and by such
  a `Location`, and by nothing else (`Perform`).
- A permanent failure can be reported as `transient`: a URL on the way that does not parse or
  encode raises a ValueError, which no handler foresees (`Perform`, `EndsUnforeseen`).
- The policy check of an asynchronous scan lets a ValueError through, as for a webhook URL that
  does not parse: that is a 500, not a 400 (`ScanAsync`).
- jcop's comment puts the whole call within `submit_timeout`. It ends within that plus the
  longer of one connect timeout and one poll round (`Analyse`). An overrun of one whole
  connect timeout is attained, and one of a whole poll round approached
  (`SubmitOverrunsBudget`, `PollOverrunsBudget`). All this for exchanges that end within the
  timeouts they are given (`Timely`).
- `to_v1` is idempotent exactly unless a category is called `verdicts`, and keeps an envelope
  key exactly unless a category of that name says something else (`DowngradeIdempotent`,
  `EnvelopeKept`, `EnvelopeErrorKindOverwritten`). A v1 category called `api_version` is lost
  under the version stamp (`BodyTellsAll`).

## Model

| member | source | states |
|---|---|---|
| ChunkBudget.CeilDiv | src/tasks.py:166 | `-(-n // d)` is the least number of chunks of `d` that hold `n` |
| ChunkBudget.FitsWireIffFitsCap | src/tasks.py:152-167 | a plaintext's wire form is within the wire cap exactly when the plaintext is within the file cap, a cap of 0 included |
| ChunkBudget.WireCapIsLeast | src/tasks.py:152-167 | for a cap of at least 1, the wire cap is the least that admits every legal plaintext |
| ChunkBudget.WireSizeStrictlyIncreasing | src/tasks.py:153-156 | one more plaintext byte always costs more wire |
| ChunkBudget.CapInBytes | src/tasks.py:152-167 | the wire cap is the file cap and 28 bytes for each chunk that a file at the cap takes, one at least |
| Encryption.AadInjective | src/encryption.py:81 | `file_id:part:parts` names one place in one file, for every file id, colons and digits included |
| Encryption.AadAsDocumented | docs/client-encryption.md:28-33 | the associated data reads as documented: id, place, total |
| BatchDecryption.SplitIsWellCut | src/tasks.py:240-263 | cutting loses nothing and gives full blobs plus at most one short, non-empty tail |
| BatchDecryption.SplitAt | src/tasks.py:240-263 | piece `i` is the bytes from `i` times the blob size on |
| BatchDecryption.SplitOfWellCut | src/tasks.py:240-263 | a list of such pieces is the only cut of its concatenation |
| BatchDecryption.OpenToOfOpenAll | src/encryption.py:64-88 | the batch succeeds only if every piece opens at its own 1-based position, and yields their plaintexts in order |
| BatchDecryption.OpenAllOfOpenTo | src/encryption.py:64-88 | and it does succeed then |
| BatchDecryption.Conservation | src/tasks.py:240-263 | opened pieces: bytes in = plaintext bytes out + 28 per piece |
| BatchDecryption.PlaintextCapImplied | src/tasks.py:231-238 | the plaintext cap is implied by the wire cap, for any number of opened pieces |
| Download.ProgressConserves | src/tasks.py:244-255 | at every loop head, bytes read = written + 28 * parts opened + buffered |
| Download.ProgressFitsCap | src/tasks.py:231-238 | at every step, what is opened from bytes within the wire cap fits the file cap |
| Download.ProgressOnPiece | src/tasks.py:249-255 | opening the next piece advances the stream along the batch, or settles that the pieces up to it do not open |
| Download.WritePlaintext | src/tasks.py:187-200 | succeeds exactly when all arrives, on time and within the cap; the file is the wire, or a prefix within the cap, also when a read raises; the response is closed |
| Download.ValidateExactly | src/tasks.py:211-229 | parameters are accepted exactly when they name this scheme or none, are all there, in bounds, with no negative total |
| Download.WireCapExactly | src/tasks.py:152-167 | the cap on a source: the file cap, and room for the chunking exactly with a positive chunk size |
| Download.StreamDecrypted | src/tasks.py:240-271 | succeeds exactly when all arrives on time, within the wire cap, with the declared count, every piece opening and the plaintext within the cap; fails as `WriteDecrypted` says |
| Download.WriteDecrypted | src/tasks.py:203-271 | refuses exactly the parameters that `ValidateExactly` does not accept; refines `BatchDecrypt` for every split into reads; on any exit once its parameters are accepted, a read that raises included, the response is closed, the file is the opened prefix of the batch and within the cap, the buffer, by its own account, stayed below one blob plus one read, and holds what was read and not opened; a network error exactly for a broken connection with nothing else wrong in what came; a decryption error only for a piece that does not open or a wrong count; a FileError, for exact tags, only for time or wire size |
| ClientEncryption.SliceCount | docs/client-encryption.md:26-27 | the caller's `parts` is the rounded-up quotient |
| ClientEncryption.StoredLayout | docs/client-encryption.md:19-35 | stored chunk `i`, byte for byte: twelve bytes of IV, then the sealing of the plaintext from `i * chunkSize` on under `id:i+1:total` |
| ClientEncryption.StoredSize | docs/client-encryption.md:19-35 | storing costs 28 bytes a chunk |
| ClientEncryption.RoundTrip | docs/client-encryption.md:17-35 | if what was issued opens, decrypting what was encrypted returns it exactly when it is within the cap, for every plaintext and chunk size |
| ClientEncryption.AcceptedIffMadeOf | src/tasks.py:203-271 | acceptance is exactly being made of chunks issued for this file id and total, each in its own place |
| ClientEncryption.Exactness | src/encryption.py:9-14 | for a file id issued once with this total, acceptance means the wire is the issued chunks 1..parts in order and the plaintext theirs |
| ClientEncryption.OnlyWhatWasStored | docs/client-encryption.md:17-35 | round trip and exactness of one AEAD: for a file encrypted once, a plaintext comes out exactly when the wire is what was stored and the file is within the cap, and it is the file |
| ClientEncryption.HypothesesMet | src/encryption.py:82-83 | all hypotheses on the AEAD are met at once, for any file |
| Reissue.ExactIffSwapClosed | src/encryption.py:81-83 | for any issued files: acceptance is one issued file exactly when they are closed under swapping fitting chunks in place |
| Reissue.MadeOneWay | src/encryption.py:81-83 | an accepted wire is made of one list of issued chunks only |
| Reissue.SinglePartIsExact | src/encryption.py:81-83 | in one part, acceptance is exact under any re-issue |
| Reissue.SpliceIsAccepted | src/encryption.py:81-83 | of two files under one id that differ in both parts, a splice is accepted that neither is |
| Reissue.SpliceExists | src/encryption.py:81-83 | witness: two such files, encrypted by the contract, under an ideal AEAD |
| ClientEncryption.LookupOpenerIsIdeal | src/encryption.py:82-83 | the ideal AEAD exists, for any set of files |
| EncryptedDownload.DownloadEncrypted | src/tasks.py:203-271 | encryptor to disk: the plaintext is written exactly when within the cap, whatever the reads; for a file id issued once, nothing else served is ever accepted |
| EncryptedDownload.DownloadAuthentic | src/tasks.py:203-271 | whatever is served, a success writes the plaintext of the one file issued under that id |
| Report.ByCategory | src/scanner.py:262-267 | groups in first-seen order, each the results of its category in order |
| Report.CategoriesAppend | src/scanner.py:262-267 | a further result adds its category at the end, if it is new |
| Report.GroupsPartition | src/scanner.py:262-267 | nothing is lost, duplicated or put in another group |
| Report.Verdicts | src/scanner.py:276-342 | one verdict per category, the reduction of its group |
| Report.ReduceIsRule | src/scanner.py:280-341 | the reduction gives the documented rule's word exactly unless an all-scored axis holds a `malware` |
| Report.ReduceIsRuleRank | src/scanner.py:280-341 | and its rank exactly unless, besides, no result says `flagged` |
| Report.ScoredMalwareIsLost | src/scanner.py:310-328 | witness: a scored engine's `malware` is reported clean |
| Report.VerdictQuotesFirst | src/scanner.py:303-340 | a discrete verdict carries the reason and path of the first result of its word within its scope |
| Report.ScoredQuotes | src/scanner.py:310-328 | a scored verdict carries the label of the top hit, or the reason of the first error or partial that decides, and no path |
| Report.FirstOfKindIsFirst | src/scanner.py:303-306 | what is quoted is the first of its word |
| Report.TopHitIsFirst | src/scanner.py:313-315 | the top hit is the first of the highest |
| Report.ScoreOfReduce | src/scanner.py:310-328 | a score is reported only on a scored axis that is flagged or clean, and is the maximum over all its results |
| Report.ReducePermutation | src/scanner.py:276-342 | kind and score do not depend on the order of the results |
| Report.ReportPermutation | src/scanner.py:242-342 | nor do the categories, their kinds and scores, and `all_errored` |
| Report.MonotoneExactly | src/scanner.py:269-341 | for every report: a further result lowers a category exactly when it is the first deciding one after advisory ones that detected nothing, weighs less than what they said, and does not bring a scored `malware` to light |
| Report.AdvisoryChangesExactly | src/scanner.py:282-288 | next to a deciding engine, an advisory result that detects nothing changes the kind exactly when it is unscored and the axis was all scored with a `malware` |
| Report.AdvisoryCleanRevealsMalware | src/scanner.py:307-328 | witness: an advisory `clean` turns such an axis from clean to malware |
| Report.DetectionDecides | src/scanner.py:282-288 | a further detection from any engine gives the category `malware` or `flagged`, as far as the axis reads it |
| Report.AllErroredMeansError | src/scanner.py:242-260 | a report that failed as a whole reads `error` on every axis |
| Report.AllErroredExactly | src/scanner.py:242-260 | it holds exactly when nothing was detected and every deciding result of every category is an error |
| Backends.ClassificationExact | src/scanners/clamav.py:113-157 | for all three backends: clean exactly on an affirmative reply, a detection exactly on one that names a threat; every other reply, exception or crash is partial or error |
| Backends.HintIsTransient | src/scanners/clamav.py:48-57 | a reason with one of the four hints in it, in either case, is transient |
| Backends.TransientHasHint | src/scanners/clamav.py:48-57 | and no other |
| Backends.ClamTells | src/scanners/clamav.py:138-157 | a clamd verdict carries the signature, or the tag of what stopped it |
| Backends.ExavTells | src/scanners/exav.py:94-102 | an exav verdict carries signature and inner path, or the class of what it could not read |
| Backends.JcopTells | src/scanners/jcop.py:156-167 | a jcop verdict carries its message, or the tag of what stopped it |
| Backends.ClamRetriesExactly | src/scanners/clamav.py:113-157 | a clamd scan is retried exactly without a status line or on a transient ERROR; with any status but OK and ERROR it is a permanent partial exactly on a limit alert, whatever its name |
| Backends.ExavRetriesExactly | src/scanners/exav.py:84-108 | an exav scan is a partial exactly on PARTIAL, and retried exactly when it says none of OK, FOUND, PARTIAL |
| Backends.JcopRetriesExactly | src/scanners/jcop.py:156-167 | a finished jcop analysis is never retried, and partial exactly when its verdict is no boolean |
| Backends.ResultOf | src/scanner.py:570-599 | one result attributed to its engine, `error` exactly when the engine raised |
| Backends.ResultTells | src/scanner.py:570-597 | the result tells what the verdict told |
| Registry.RunEach | src/scanner.py:560-604 | the run over the engines comes to one result per name, in name order, whatever each raises; it fails only when nothing is named or an engine cannot be built |
| Registry.ResolveScanners | src/scanner.py:423-460 | the loops compute the resolution of a request's selectors |
| Registry.ResolveExactly | src/scanner.py:423-460 | a request resolves to the union of its selectors, once each, the default categories standing in for none; refused exactly for an unknown category, an engine that is not available, or nothing selected |
| Registry.ExpandOrder | src/scanner.py:438-443 | categories come in order, and their engines in theirs |
| Registry.DedupeOrder | src/scanner.py:445-446 | no name moves for what comes after it |
| Registry.Dedupe | src/scanner.py:446 | de-duplication keeps exactly the names, once each |
| Registry.DecidesExactly | src/scanner.py:469-474 | an engine decides a selection exactly when named and not advisory, or named among advisory ones only |
| Registry.SizeCapExactly | src/scanner.py:477-488 | a selection is refused for its size cap exactly when clamav would decide it past its ceiling |
| Registry.ValidateCategory | src/scanner.py:502-528 | one category's boot check is the declared condition |
| Registry.ValidateRegistry | src/scanner.py:491-557 | the boot check accepts exactly the consistent deployments |
| Registry.BootsExactly | src/scanner.py:491-557 | what boots, in terms of the configuration alone |
| Registry.DecidesUnionDecidesPart | src/scanner.py:469-474 | what decides a union of categories decides one of them |
| Registry.BootCoversRequests | src/scanner.py:477-557 | on a deployment that boots, every categories-only request resolves to engines of those categories and passes the size-cap check |
| Registry.DecidesReportExactly | src/scanner.py:269-274 | which engines decide their category in a report |
| Registry.SizeCapCheckExactOnOneCategory | src/scanner.py:477-488 | in one category, past the ceiling, the check passes exactly when clamav does not decide |
| Registry.SizeCapGap | src/scanner.py:477-488 | across categories, exactly when it passes and clamav still decides |
| Registry.SizeCapGapExists | src/scanner.py:477-488 | witness, on a deployment that boots |
| Registry.CleanExactly | src/scanner.py:276-342 | for all raw replies: a category reads clean exactly when affirmed by them or, all scored, when every deciding engine said something definite |
| Registry.VerdictExactly | src/scanner.py:276-342 | for all raw replies: malware, error, partial or clean on a discrete axis, each exactly when |
| Registry.CleanMeansAffirmed | src/scanner.py:276-342 | fail closed: a clean category means every deciding engine's raw reply affirmed it and no engine named a threat, exactly unless the axis is all scored and one did |
| Registry.FalseMeansAffirmed | src/wire.py:61-75 | the same, with the same exception, for `False` in v1 |
| Registry.ScoredThreatReadsClean | src/scanner.py:310-328 | witness: a threat named by the one engine of a scored category reads clean |
| WireFormat.OfPath | src/wire.py:53-58 | v1 exactly under the v1 prefix |
| WireFormat.Downgrade | src/wire.py:78-107 | the loop computes `ToV1` |
| WireFormat.DowngradeIsToV1 | src/wire.py:78-107 | the v1 body is the only one that meets the key-by-key description: scalars over the envelope, the qualifier only where missing |
| WireFormat.V1IsAFunctionOfV2 | src/wire.py:1-13 | the v1 body can be computed from the v2 body: the views cannot disagree |
| WireFormat.ServedTellsAll | src/wire.py:110-124 | a served body tells all its record says and its version: every key in v2, in v1 every key that is no reported category |
| WireFormat.VerdictServed | src/scanner.py:204-212 | a v2 verdict is served with its word, score, reason and path |
| WireFormat.BreakdownServed | src/scanner.py:169-184 | the breakdown has one entry per result, in order, that tells the same of it |
| WireFormat.DowngradeIdempotent | src/wire.py:78-107 | where scores are numbers, a second downgrade changes nothing, exactly unless a category is called `verdicts` |
| WireFormat.ReportScoresNumeric | src/scanner.py:344-348 | in every payload with a report they are |
| WireFormat.EnvelopeKept | src/wire.py:87-98 | an envelope key is kept, exactly unless a category of that name says otherwise |
| WireFormat.V1Axis | src/wire.py:61-75 | a v1 axis is decided by its category verdict alone, whatever the envelope |
| WireFormat.NullMalwareIsQualified | src/wire.py:100-106 | for every report: a v1 `malware: None` comes with an `error_kind`, the envelope's if it has one, else by the verdict; a category called `error_kind` stands in its place |
| ResultStore.Store.Record | src/results.py:64-79 | a write replaces the job's entry with a fresh expiry, or is swallowed |
| ResultStore.Store.Fetch | src/results.py:82-96 | a read gives the unexpired record to its owner only |
| ResultStore.EvictionUnobservable | src/results.py:64-96 | what becomes of expired keys changes no read, now or after further writes and time |
| ScanTask.Worker.Finalize | src/tasks.py:138-149 | records canonically, and enqueues the webhook, which tells all the record says in the job's version |
| ScanTask.Worker.ReportError | src/tasks.py:120-123 | a pre-scan error is recorded and delivered |
| ScanTask.Worker.Deliver | src/tasks.py:126-135 | a report is recorded and delivered, done or failed |
| ScanTask.Worker.Run | src/tasks.py:311-436 | one attempt: raises exactly when `RetriedExactly` says so and then reports nothing, else reports exactly once; never raises once retries are spent; leaves no temporary file |
| ScanTask.Worker.RunJob | src/tasks.py:274-280 | over every sequence of attempt outcomes: at most three attempts, another one exactly after a failure that may pass, exactly one report, that of the first attempt to settle |
| ScanTask.OutcomeIsFirstToSettle | src/tasks.py:35-45 | the reporting attempt settled and every earlier one raised with retries left |
| ScanTask.FinalRecordIsTerminal | src/tasks.py:120-149 | every final record is its job's, done or error, with an `error_kind` exactly on error |
| Attempts.Perform | src/tasks.py:312-362 | an attempt with its real parts comes to a report exactly when the environment delivers a file (policy, the run of redirects, a status not in 400..599, declared length, body, decryption) and the engines can be built, and it is theirs on that file; each failure ends in its own exception; which responses stay open |
| Attempts.DeliversByRun | src/ssrf.py:262-308 | any chain of requests that delivers a file is the run from the URL |
| Attempts.HonestSource | docs/client-encryption.md:17-35 | an honest source behind a URL that leads to it, on time and unbroken, delivers its file exactly when that is within the cap |
| Attempts.ScanEncrypted | src/tasks.py:311-436 | whatever is served, a record with a report, so every `done` one, of an encrypted job is the engines' report on a delivered file, the plaintext issued under its id, and what it calls clean was affirmed of that plaintext, scored axes aside; a delivered file is reported on, or the attempt raises because all that decides failed; the record is what is stored and posted |
| Attempts.HonestFile | docs/client-encryption.md:17-35 | an honest source, announced at its length, makes its file exactly when that is within the cap |
| ScanTask.ErrorKindTellsPermanence | src/tasks.py:364-416 | `error_kind` is `file` exactly on a permanent failure; only unforeseen failures and all-failed scans are retried; a report is attached exactly when a scan ran |
| ScanTask.RetriedExactly | src/tasks.py:409-429 | an attempt is made again exactly while retries are left and it failed by an unforeseen exception or with all that decides failing to scan |
| ScanTask.RecordTellsJob | src/tasks.py:120-149 | a final record tells the job's id, file name and metadata, how it went, and its report exactly when a scan ran |
| ScanTask.FinalV1NullIsQualified | src/tasks.py:138-149 | for every final record: a v1 `malware: None` has an `error_kind` beside it, which says whether to retry exactly unless a scanned category is called `error_kind` |
| ScanTask.FinalDowngradeIdempotent | src/wire.py:78-107 | downgrading a final record twice is downgrading it once, exactly unless a scanned category is called `verdicts` |
| ScanTask.TransientFailureHidesNothing | src/tasks.py:422-433 | a job with an axis that is not `error` is delivered, not failed or retried |
| ScanTask.EnvelopeErrorKindOverwritten | src/wire.py:85-98 | witness: in the record of a job whose scanners all failed, a category called `error_kind` overwrites the `transient` of the envelope |
| JobProtocol.InvNext | src/app.py:382-404 | every step of endpoint, worker or clock keeps the protocol's invariant |
| JobProtocol.VisibleIsLatestWrite | src/results.py:64-96 | over all runs, a poll sees the job's latest write, unexpired, as its owner only |
| JobProtocol.VisibleIsOwn | src/app.py:414-431 | what is seen is the job's own pending record or its worker's final one, by its submitter |
| JobProtocol.PollAgreesWithWebhook | src/tasks.py:144-149 | polling a finished job in its own version gives the body of its webhook |
| JobProtocol.PollTells | src/app.py:415-431 | over all runs, a poll tells the id it asks for and `pending`, with what was sent, until the record is final, and then its status, unless a v1 category bears that name |
| JobProtocol.HookTells | src/tasks.py:138-149 | every webhook tells its job and how it ended, with the same exception |
| JobProtocol.PendingTells | src/app.py:395-404 | the pending record |
| JobProtocol.AtMostOneCallback | src/tasks.py:138-149 | over all runs at most one webhook per job, present exactly when the job finished and has one |
| JobProtocol.AtMostThreeRuns | src/tasks.py:34-45 | over all runs, a job is given to a worker at most three times, and the third finishes it |
| JobProtocol.SettledIsStable | src/app.py:393-404 | a settled job reads the same until it expires |
| JobProtocol.SettledPendingExactly | src/app.py:382-404 | a settled job reads pending exactly when the seed is the last write that reached the store |
| JobProtocol.SeededNeverGoesBack | src/app.py:393-404 | once the seed is in, a terminal status never turns back |
| JobProtocol.RacedRunIsLegal | src/app.py:382-404 | send, work, seed is a run of the protocol |
| JobProtocol.SeedLandsLast | src/app.py:382-404 | witness: after it the finished job reads pending until it expires, whatever follows |
| JobProtocol.SeedFirstShowsResult | src/app.py:393-404 | a final record written after the seed is what the owner sees from then on |
| Endpoints.Service.ScanSync | src/app.py:303-342 | each answer exactly when it is given: 400 and 413 by selection and size alone, 503 exactly when nothing was detected and all that decides is errors, else a body that tells every category's verdict in the route's words; never a 500 |
| Endpoints.BodyTellsAll | src/wire.py:110-124 | the body of either version tells its own version and the verdict of every category, but for a v1 category called `api_version` |
| Endpoints.Service.ScanAsync | src/app.py:347-410 | each code exactly when it is given; accepted, it enqueues and seeds; otherwise it has no effect |
| Endpoints.Service.JobStatus | src/app.py:415-431 | a body that tells all the record says in the route's version, or 404 |
| Endpoints.ResolvedRuns | src/app.py:321-342 | what resolves can be run: the scan never fails in `run_scanners` itself |
| Endpoints.BootedCategoriesAnswered | src/app.py:303-342 | on a deployment that boots, a categories-only scan is refused only for size or for a scan that failed as a whole |
| Endpoints.UnavailableHidesNothing | src/app.py:338-341 | a 503 withholds only reports that read `error` on every axis |
| Jcop.Analyse | src/scanners/jcop.py:103-153 | one submit at most, exactly when unknown and in budget; polls bounded by the budget; returns the first content marked done; crashes exactly on a 200 of no use; the exact end time and its bound |
| Jcop.PollUntil | src/scanners/jcop.py:140-153 | every poll round begins before the deadline, every poll but the last is inconclusive, and an inconclusive last one means the deadline has passed; a crash exactly on a 200 of no use |
| Jcop.SubmitOverrunsBudget | src/scanners/jcop.py:103-125 | the budget can be overrun by a whole connect timeout |
| Jcop.PollOverrunsBudget | src/scanners/jcop.py:140-153 | and by as near a whole poll round as one likes, for every budget, interval and result timeout |
| Redirects.ValidateHostname | src/ssrf.py:87-145 | accepts exactly a non-literal host all of whose addresses pass, and returns them; a name the resolver cannot encode escapes as a ValueError |
| Redirects.ValidateAndUnpack | src/ssrf.py:229-246 | returns a legitimate pin, and fails only when the URL has none |
| Redirects.Session.Follow | src/ssrf.py:282-306 | a response is returned exactly when final; refused exactly as a downgrade; left behind exactly by a `Location` that raises; else closed and followed |
| Redirects.Session.RequestWithRedirects | src/ssrf.py:262-308 | makes the run of the URL: at most six requests, each pinned for its own hop and reached by a redirect of the one before, as far as that goes; returns exactly the final response, the only one left open, but for a `Location` that cannot be joined or, on an https hop, parsed; a ValueError exactly where something does not parse or encode |
| Redirects.RunsOnce | src/ssrf.py:262-308 | a URL has one run |
| Redirects.RunLength | src/ssrf.py:27-28 | five redirects are followed, as long as they lead somewhere, and no more; none where none is to be |
| Redirects.BrokenLocationLeavesOpen | src/ssrf.py:296-305 | witness: a redirect to `http://[` raises and its response stays open |
| Redirects.HttpsStays | src/ssrf.py:296-304 | once a hop's URL parses as https, so does every later one |
| Redirects.AnswerDecides | src/ssrf.py:285-306 | what becomes of an answer, by its status, its `Location` and the two URLs as parsed |
| Redirects.OnlyPublicOrTrusted | src/ssrf.py:124-145 | every request goes to a public address, or for a host the operator trusts |
| Simulation.Step | src/tasks.py:311-436 | an event carried out by worker and store is the protocol's step |
| Simulation.RunEvents | src/results.py:64-96 | every run of the protocol, carried out by the objects from scratch, leaves them in its final state |
| Simulation.Submitted | src/app.py:347-410 | the endpoint's body is a submission and, next, its seed, or nothing |
| Simulation.Polled | src/app.py:415-431 | the endpoint answers a poll with what the state of the run shows |
| Exinstream.DecodeUndoesFrames | src/scanners/exav.py:45-58 | decoding the frames gives back the chunks' bytes and leaves what follows |
| Exinstream.LengthIsBigEndian | src/scanners/exav.py:53 | the length of a frame has its most significant byte first |
| Exinstream.CutStreamNeverDecodes | src/scanners/exav.py:45-58 | no proper prefix of a stream decodes to anything |
| Exinstream.Stream | src/scanners/exav.py:45-58 | for every short read, the daemon decodes exactly the file; for every broken send, nothing, and it breaks off exactly there; frames are non-empty and at most 1024 bytes; the connection is closed |

## Left out

- Authentication, routing, request models, logging, metrics, dashboard, health checks and deployment.
- AES-GCM itself: idealised as above. UTF-8 encoding of the associated data is taken as the identity on text.
- Base64 decoding of the key and conversion of request values: an `EncParams` field is None when it does not convert.
- A negative `MAX_URL_SIZE`, and a chunk-size floor below 1 (a deployment would have to configure it).
- The exact text of scanner error messages; durations and the rounding of scores in `as_dict`; scores are reals.
- A `kind` outside the five documented words: a backend's verdict has one of them. A backend's `signature`, `location`, `error` and `category` that are not text count as absent.
- The order of `DEFAULT_SCANNERS` and of verdict keys in a payload: both are maps, and only which of several errors comes first could depend on it. The cache of `get_scanner`, which builds the same engine each time.
- The steps of an attempt in `ScanTask` and `JobProtocol` (policy, fetch, write, scan) are outcomes of its environment; `Attempts` derives them from the session, the writers and the engines. The policy check's own steps are not modelled.
- Threads in `run_scanners`: engines run one after the other in name order, which is the order of the pool's results, and replies come by position.
- Redelivery of a message by the broker other than after a raise, a failure of the broker to enqueue a webhook, and the webhook's own retries.
- URL parsing, address classification, TLS and the adapter's rewriting of a request: functions and predicates of the redirect model's world.
- Oversleeping in jcop's poll loop: a sleep lasts its interval.
- The command that opens an EXINSTREAM session, and its reply line, beyond their classification.
