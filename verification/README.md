# VestFlow, modelled and verified in Dafny

VestFlow is a vesting application: grantors upload CSV files, commit batches of vesting slots under a
Merkle root, and beneficiaries claim with proofs; browser workers stream notifications and
recompute claimable amounts; an API limits request rates and issues tokens. This project models the
parts of it whose correctness is decided by the code alone, and proves what they are for. Verify
everything with `dafny verify dfyconfig.toml`.

| file | what it models |
|---|---|
| `ByteCodec.dfy`, `MerkleTree.dfy`, `MerkleBatch.dfy` | the batch builder, its tree and leaf encoding |
| `BatchClaims.dfy` | the contract's claims against a committed batch, over whole histories |
| `SseFraming.dfy`, `SseWorker.dfy` | the notification SharedWorker: framing, frame parser, buffer, unread count, what the tabs receive |
| `ClaimableWorker.dfy` | the hook and the Web Worker that compute claimable amounts, as two processes with queues |
| `CsvText.dfy`, `CsvValidation.dfy`, `BulkPipeline.dfy` | CSV printer, parser, line splitter, validator, balance split, chunks; and the way from a file to an accepted claim |
| `RateLimit.dfy` | the fixed-window rate limiter over one shared map |
| `Vesting.dfy`, `ScheduleContract.dfy`, `Stroops.dfy` | vesting curves, card percentages, stream rate; the contract's own vesting with pausing, resuming, claiming and revoking; decimal amount strings |
| `Jwt.dfy` | base64url and the HS256 tokens |
| `Arithmetic.dfy`, `BigInts.dfy`, `JsString.dfy`, `Schedules.dfy`, `Wrappers.dfy` | shared arithmetic facts, truncating division, JavaScript string operations, row types, Option and Result |

Code that changes things step by step is modelled by methods and classes whose contracts tie them to
specification functions; the properties are then proved about those functions, over all inputs, runs
and interleavings. Foreign code enters as a parameter that every theorem quantifies over: the hash
function, the MAC, StrKey decoding and checks, JSON, UTF-8, date parsing, case folding, and the claimable
computation. Clock readings are inputs.

Soundness of the tree cannot assume an injective hash, which does not exist. It is stated as: an
accepted slot was committed, or two distinct strings with equal digests can be pointed out among the
finitely many that the builder and that verification hashed.

What the proofs showed about the code beyond what its documentation says:

- The limiter admits a key at most `2 * maxRequests - 1` times in any closed interval of one window
  length, one less than two full windows, and for every positive limit and window some run reaches that number.
- A client that waits for exactly `Retry-After` seconds is still refused when the rest of the window was a
  positive whole number of seconds, because the comparison with the end of the window is strict.
- With a clock that goes back, a sweep changes a decision at the first request that returns to a window
  swept away, exactly if that window had no admission left.
- `CONNECT` from one tab overwrites the shared unread count without telling the other tabs; this is the
  only step after which badges disagree.
- Over FIFO queues the hook's stale-response guard has nothing to drop. Between a commit and its effects,
  however, a cursor request is answered for the schedules before; the push that follows puts it right.
- The hook on its own shows nothing if its worker fails before any cursor request, contrary to the comment at
  hooks/useClaimableWorker.ts:77-78, and without a worker does not recompute for new schedules. Its one
  client, components/PortfolioTimeline.tsx:327-330, requests a cursor after every change of the
  schedules, which makes up for both: with it the timeline always ends up showing the current result.
- The contract marks leaves as claimed across all batches, so a row whose leaf was claimed elsewhere, or that
  repeats an earlier row, cannot be claimed although its proof is right; its amount stays in the batch
  whatever is claimed afterwards.
- A valid CSV row can be worth less than one stroop; the contract then refuses it.
- `parseSchedulesCSV` does not strip a byte order mark. It stays on the first cell, where only the trimming of
  the header names removes it.
- `tokenAmountToBaseUnits` with 0 decimals adds the first fraction digit to the whole part.
- A pause does not stop the percentage of schedules with milestones that are still to come.
- The card knows no cliff. A linear schedule's card overstates what has vested by at most half a percent of the
  total and one stroop, for some totals at exactly those times at which its percentage is rounded up. With a
  cliff it can overstate by the cliff's share of the total on top, even where the percentage is exact; the
  exact condition is stated for every kind that vests by time alone.
- A revocation replaces the percentage of time by that of what has vested, and can move it back.
- The contract takes a batch's deposit and root independently. The balance of an open batch stays non-negative if and
  only if the deposit covers the first payable slot of each new leaf.

## Model

| member | source | states |
|---|---|---|
| ByteCodec.DecodeEncode | scripts/merkle-batch.ts:54-63 | decoding the bytes gives the number back modulo 256^width, for every integer, negative ones included |
| ByteCodec.EncodeDecode | scripts/merkle-batch.ts:54-63 | encoding a decoded byte string gives it back: encoder and decoder are inverse bijections |
| ByteCodec.SignedRoundTrip | scripts/merkle-batch.ts:43-52 | a signed field is read back as written if and only if the value fits the two's-complement width |
| ByteCodec.SignedEncodeDecode | scripts/merkle-batch.ts:43-52 | every byte string is the encoding of the in-range signed number it denotes |
| ByteCodec.RangeConstants | scripts/merkle-batch.ts:43-63 | the ranges are those of 64 and 128 bits |
| ByteCodec.FirstByteWeighs | scripts/merkle-batch.ts:43-63 | the byte order is big-endian: the first byte counts 256^(n-1) |
| ByteCodec.I128ToBytesBE | scripts/merkle-batch.ts:43-52 | the descending loop fills 16 bytes worth the value modulo 2^128, which read back as the value exactly for i128 values |
| ByteCodec.U64ToBytesBE | scripts/merkle-batch.ts:54-63 | the loop fills 8 bytes worth the value modulo 2^64, which read back as the value exactly for u64 values |
| MerkleTree.NodePreimageInjective | scripts/merkle-batch.ts:96-100 | a sorted, domain-separated pair determines its two children up to order and nothing else |
| MerkleTree.NodePreimageIsSorted | scripts/merkle-batch.ts:96-100 | what is hashed for two siblings is the byte 0x01 and then the two, the one smaller as a big-endian number first |
| MerkleTree.VerifyMerkleProof | contracts/vestflow/src/lib.rs:6611-6617 | the contract's loop is the left fold of node hashing over the proof |
| MerkleTree.ClimbLevel | scripts/merkle-batch.ts:129-134 | the in-place pass over positions and proofs keeps every leaf's path consistent with its final proof |
| MerkleTree.BuildMerkleTree | scripts/merkle-batch.ts:115-139 | only an empty list fails; otherwise every proof folds from its own leaf to the returned root |
| MerkleTree.Completeness | scripts/merkle-batch.ts:108-139 | at every level every position folds with its proof to the root, through sibling steps and odd promotion |
| MerkleTree.RootSplits | scripts/merkle-batch.ts:108-139 | seen from the top, the root of more than one leaf is the node over the root of the first 2^j leaves and that of the others, for the largest such power below their number |
| MerkleTree.CeilLog2IsLeast | scripts/merkle-batch.ts:119-136 | the depth function is the least exponent of two that reaches the leaf count |
| MerkleTree.ProofDepth | scripts/merkle-batch.ts:119-136 | no proof is longer than ceil(log2 n), and the first leaf's proof is exactly that long |
| MerkleTree.DepthLimitExact | contracts/vestflow/src/lib.rs:1313-1318 | a depth limit admits all proofs of a tree if and only if the leaf count is at most two to the limit |
| MerkleTree.Descend | scripts/merkle-batch.ts:97-139 | an accepted fold meets the committed level at some leaf, or a collision is exhibited |
| MerkleTree.Soundness | scripts/merkle-batch.ts:81-139 | an accepted leaf preimage is one of the committed ones, or builder and verifier hashed two different strings to one digest |
| MerkleBatch.LayoutFields | scripts/merkle-batch.ts:11-14 | the fixed-width layout is 75 bytes and every field can be cut out again |
| MerkleBatch.LeafPreimageInjective | scripts/merkle-batch.ts:81-94 | two slots have equal preimages if and only if the contract reads the same terms from both; in range that is equality of all fields |
| MerkleBatch.LeafOfRow | contracts/vestflow/src/lib.rs:6543-6583 | read byte by byte, the leaf of an in-range row holds 0x00, the key, the amount in stroops, duration and cliff in seconds, the start, the kind's number and the flag |
| MerkleBatch.CanonicalFacts | contracts/vestflow/src/lib.rs:6563-6583 | what the contract reads from a leaf is in range, encodes to the same leaf, and is what was written exactly for in-range slots |
| MerkleBatch.LeafHash | scripts/merkle-batch.ts:81-94 | the leaf is the digest of the slot's preimage, and fails exactly when the address does not decode |
| MerkleBatch.BuildBatchFromRows | scripts/merkle-batch.ts:161-206 | succeeds exactly for non-empty rows with one token and decodable addresses; then entries, proofs, root and total commit to the rows |
| MerkleBatch.MismatchedExactly | scripts/merkle-batch.ts:161-184 | the error names exactly the rows whose token differs |
| BatchClaims.DistinctMembersCost | scripts/merkle-batch.ts:186 | distinct members of the committed slots cost at most the deposit total |
| BatchClaims.TotalStroopsIsTotalAmount | scripts/merkle-batch.ts:186 | the builder's total is the sum over the committed slots |
| BatchClaims.ClaimSoundness | contracts/vestflow/src/lib.rs:1343-1366 | terms that pass the proof check are the contract's reading of a committed slot, or a collision is exhibited |
| BatchClaims.ClaimAcceptedExactly | contracts/vestflow/src/lib.rs:1313-1386 | a claim is accepted if and only if it meets all documented conditions, and then takes its amount and marks its leaf |
| BatchClaims.RefusalsAreDocumented | contracts/vestflow/src/lib.rs:1283-1298 | every refusal has the reason that is documented for its error |
| BatchClaims.RunKeepsInvariant | contracts/vestflow/src/lib.rs:1299-1412 | over every history of claims on this batch and on others: root and expiry fixed, balance is deposit minus payments, payments distinct and committed, claimed set exact, or a call collides |
| BatchClaims.Solvency | contracts/vestflow/src/lib.rs:1367-1386 | over every history and for any deposit no slot is paid twice, only committed slots are paid, and the balance is the deposit minus payments of at most the total of the slots, or a call collides; so a deposit of that total is never overdrawn |
| BatchClaims.PayoutsAreMost | contracts/vestflow/src/lib.rs:1343-1386 | no history pays more than the slots' own claims do: the payments are among the first payable slots of each new leaf, or a call collides |
| BatchClaims.SolventExactly | contracts/vestflow/src/lib.rs:1223-1386 | the balance of an open batch stays non-negative, in its own claims and in every history without a collision, if and only if the deposit covers those payouts |
| BatchClaims.EverySlotIsPaid | contracts/vestflow/src/lib.rs:1299-1412 | claiming every slot of a committed batch with its own proof pays all of them if and only if the batch is open and within the depth limit and all slots are payable with new, pairwise different leaves; then the deposit minus the total is left |
| BatchClaims.OwnClaimsPay | contracts/vestflow/src/lib.rs:1299-1412 | for any deposit those claims pay exactly the first payable slot of each new leaf, and the balance is the deposit minus that; with a deposit of the total it is the total of the other slots |
| BatchClaims.RestStaysLocked | contracts/vestflow/src/lib.rs:1343-1386 | after that no sequence of claims, here with whatever terms and proofs or on other batches, is paid anything more, or a call collides |
| BatchClaims.RepeatedSlotIsPaidOnce | contracts/vestflow/src/lib.rs:1343-1360 | a batch that holds one slot twice pays it once and keeps the other amount |
| BatchClaims.RowIsClaimable | contracts/vestflow/src/lib.rs:1313-1376 | a committed in-range row of at most 500 is accepted with its own proof, of length at most 9, if and only if the batch is open, the amount positive and the leaf unclaimed |
| BulkPipeline.AcceptedRowIsClaimable | lib/csv-validation.ts:182-258 | every row the validator accepts can be claimed exactly under those three conditions |
| BulkPipeline.FundableDepositCovers | lib/csv-validation.ts:269-287 | a batch built from the fundable rows needs a deposit within the balance |
| JsString.SplitAppend | workers/sse.worker.ts:172-174 | splitting is incremental: complete parts stay, only the unfinished last part meets what comes next |
| JsString.SpaceCharacters | lib/csv-validation.ts:66-104 | the characters that trimming removes, one by one |
| JsString.TrimParts | lib/csv-validation.ts:74-104 | trimming takes off white space at both ends, all there is, and nothing else |
| SseFraming.FeedChunk | workers/sse.worker.ts:166-179 | one read: the frames so far plus those of the buffered rest with the new chunk are the frames of the whole text |
| SseFraming.ParseFrame | workers/sse.worker.ts:94-112 | the loop over lines yields the last id and the joined data lines, or nothing for blank frames and comments |
| SseFraming.LineByLine | workers/sse.worker.ts:99-107 | after any lines, a data line adds its text without leading white space, an id line replaces the id, comments and other lines do nothing |
| SseFraming.FrameSays | workers/sse.worker.ts:94-112 | a frame says something if and only if it is not blank and has a data line; then it is the last id and the joined data |
| SseFraming.FramesOfWireText | indexer/src/sse.ts:29-32 | cutting a rendered text gives exactly the rendered frames and no rest |
| SseFraming.FrameRoundTrip | workers/sse.worker.ts:95-112 | a rendered message is read as meant if and only if its id has no surrounding and its data lines no leading white space; comments are skipped |
| SseWorker.Worker.PushToBuffer | workers/sse.worker.ts:59-67 | the in-place push and eviction loop is the specified push |
| SseWorker.Worker.HandleFrameText | workers/sse.worker.ts:114-134 | the method updates buffer, ids, unread count, last event id and tab messages as specified, and throws exactly on a JSON null |
| SseWorker.Worker.HandleAll | workers/sse.worker.ts:176-178 | frames are handled in order up to the first that throws |
| SseWorker.Worker.ReadStream | workers/sse.worker.ts:164-184 | the final state depends on the concatenated text only, not on how it was cut into chunks |
| SseWorker.Worker.OnConnect | workers/sse.worker.ts:239-245 | a new tab is sent the buffer and the unread count |
| SseWorker.Worker.OnRequest | workers/sse.worker.ts:190-237 | the five requests change counters, ports and messages as specified |
| SseWorker.StreamDeliversItems | workers/sse.worker.ts:164-179 | however the wire text of faithful messages and comments is cut, the worker ends as if each message had been handed over directly, in order |
| SseWorker.StreamIsRun | workers/sse.worker.ts:164-184 | a response has the effect of a run of frame events, so invariants of runs hold after it |
| SseWorker.PushKeepsBuffer | workers/sse.worker.ts:59-67 | a push appends to the log, slides the 100-entry window, and the id set stays that of the window |
| SseWorker.BufferRefinesLog | workers/sse.worker.ts:59-67 | in every reachable state the buffer is the tail of the deduplicated arrivals, the id set is the buffer's, and equal ids lie at least 100 acceptances apart |
| SseWorker.BufferIsBounded | workers/sse.worker.ts:33-37 | the buffer holds min(100, n) entries with distinct ids |
| SseWorker.UnreadFollowsLog | workers/sse.worker.ts:128-131 | in every reachable state the unread count is that of a reference on the log of arrivals: a frame adds what the deduplicated log grows by, MARK_READ takes off what it lists of the last 100, down to 0, the other requests set it |
| SseWorker.FramesAreCounted | workers/sse.worker.ts:128-131 | without requests the count is the number of notifications in the deduplicated log |
| SseWorker.ResumesFromLast | workers/sse.worker.ts:126 | after any run the stream resumes from the last delivered notification that came with an id, or from a later CONNECT |
| SseWorker.ThrowsExactly | workers/sse.worker.ts:114-126 | a frame throws if and only if its data is a JSON null, and then changes nothing |
| SseWorker.TabIsTold | workers/sse.worker.ts:190-245 | what each event sends to an open tab, message by message and in order |
| SseWorker.TabHearsEverything | workers/sse.worker.ts:133 | while a tab stays open it is notified of every arrival, duplicates included, exactly once and in order |
| SseWorker.OpenTabs | workers/sse.worker.ts:231-245 | attaching and disconnecting change who is open, and a closed tab's CONNECT is still answered |
| SseWorker.TabsAreReplicas | workers/sse.worker.ts:239-245 | in every reachable state the backfill and notifications a tab was sent rebuild the buffer exactly |
| SseWorker.BadgesAgreeUnlessOverwritten | workers/sse.worker.ts:190-237 | a step keeps all tabs' unread counts equal to the worker's if and only if it is not a CONNECT with another count while another tab is open |
| ClaimableWorker.Calculator.OnMessage | workers/claimable-calculator.worker.ts:39-52 | the handler replaces the cache if schedules come along, and answers with the computation on the cache |
| ClaimableWorker.Hook.Effects | hooks/useClaimableWorker.ts:56-108 | the mount and push effects start the worker once and post the schedules with the last cursor or the clock |
| ClaimableWorker.Hook.RequestCursor | hooks/useClaimableWorker.ts:110-118 | posts a numbered request, or computes at once without a worker |
| ClaimableWorker.Hook.OnMessage | hooks/useClaimableWorker.ts:67-75 | applies a response unless an answer with a higher id was applied |
| ClaimableWorker.Hook.OnError | hooks/useClaimableWorker.ts:76-88 | drops the worker and computes for the last cursor, if there is one |
| ClaimableWorker.Reachable | hooks/useClaimableWorker.ts:56-118 | the protocol invariant holds in every interleaving |
| ClaimableWorker.AppliedInOrder | hooks/useClaimableWorker.ts:67-75 | in every interleaving answers are applied for requests 1, 2, 3, ... without gap, each the direct computation on the set pushed last at the request's cursor; that set is the rendered one unless a push was due |
| ClaimableWorker.AppliedIsCurrent | hooks/useClaimableWorker.ts:100-118 | an applied answer is the direct computation on the schedules rendered and the cursor asked for when its request was sent if and only if no push was due or the set pushed last gives the same result |
| ClaimableWorker.StaleWindow | hooks/useClaimableWorker.ts:51-118 | between any commit and its effects a cursor request is sent for the new set but will be answered for the old one; the effects then send the new set at the same cursor |
| ClaimableWorker.PushSends | hooks/useClaimableWorker.ts:100-108 | after every commit with a worker the effects send the rendered set with the last cursor, or with the clock if none was ever asked for |
| ClaimableWorker.GuardAppliesFresh | hooks/useClaimableWorker.ts:67-75 | for responses in any order the guard applies exactly those that are no older than all before them |
| ClaimableWorker.NothingIsStale | hooks/useClaimableWorker.ts:70-72 | the next response always has a higher id than all applied ones and is applied |
| ClaimableWorker.Quiescent | hooks/useClaimableWorker.ts:100-118 | with both queues empty and effects run, what is shown is the computation on the latest schedules and cursor |
| ClaimableWorker.DrainSettles | workers/claimable-calculator.worker.ts:39-52 | from every reachable state with a worker, finishing the pending work leads to that |
| ClaimableWorker.FailureHandsOver | hooks/useClaimableWorker.ts:76-88 | in every run a failing worker is replaced by exactly one direct computation if a cursor was requested before and by none otherwise, and no answer of the failed worker gets through later |
| ClaimableWorker.FailureBeforeAnyCursor | hooks/useClaimableWorker.ts:76-88 | the hook on its own: if the worker fails first, nothing is shown in any continuation without a cursor request |
| ClaimableWorker.FallbackNeverRefreshes | hooks/useClaimableWorker.ts:100-108 | the hook on its own: without a worker no run without a cursor request changes what is shown, so it is right for the rendered set exactly when both sets give the same result |
| ClaimableWorker.ClientShowsCurrent | components/PortfolioTimeline.tsx:327-330 | over every run of the timeline with its hook, with a worker or without, once effects have run and the queues are empty it shows the latest schedules at the latest cursor |
| ClaimableWorker.ClientSettles | components/PortfolioTimeline.tsx:327-330 | from every state of such a run after effects, finishing the pending work leads to that |
| CsvText.ParseCSVLine | lib/csvImport.ts:26-56 | the character loop with lookahead computes the cells of the quote automaton |
| CsvText.ParseCsvLine | lib/csv-validation.ts:74-104 | the same cells, each trimmed |
| CsvText.WrittenLine | lib/csvImport.ts:26-56 | any line of cells made of bare and quoted stretches, joined by commas, is read as the cells' texts |
| CsvText.PlainLine | lib/csvImport.ts:150-154 | cells without quote or comma, as in the importers' templates, are read as they stand |
| CsvText.UnclosedQuote | lib/csvImport.ts:33-44 | a quote that is never closed runs to the end of the line |
| CsvText.QuotingIsDoubling | lib/csvExport.ts:148 | the exporters put quotes around a cell, double every quote inside and change nothing else |
| CsvText.SplitLines | lib/csv-validation.ts:66-72 | BOM, line break normalisation and the popping of blank lines at the end |
| CsvText.RowRoundTrip | lib/csvExport.ts:146-154 | reading a printed row gives back every cell exactly, whatever characters it holds |
| CsvText.TrimmedRowRoundTrip | lib/csv-validation.ts:74-104 | the trimming reader gives the cells back if and only if none has white space around it |
| CsvText.FileLinesRoundTrip | lib/csv-validation.ts:66-72 | splitting an exported file gives back its rows if and only if no cell contains CR or LF |
| CsvText.ValidatorRoundTrip | lib/csv-validation.ts:66-104 | the bulk validator reads an exported table back exactly, with or without BOM, if and only if no cell has a line break or white space around it |
| CsvText.SplitBreaksIsSplit | lib/csvImport.ts:100 | splitting at the three kinds of line break is the validator's normalising and splitting |
| CsvText.FileRoundTrip | lib/csvImport.ts:99-176 | the simple importers cut out exactly the exported cells if and only if no cell has a line break and a BOM, if present, is stripped; otherwise it stays on the first cell, and trimming the cells removes it |
| CsvText.TransactionHistoryRoundTrip | lib/csvExport.ts:146-154 | both round trips for the transaction history export, with its header, columns and BOM |
| CsvText.NoCarriageReturns | lib/csvExport.ts:146-154 | exported lines end in line feeds alone |
| CsvValidation.NoErrorsIffOk | lib/csv-validation.ts:106-180 | a row has no errors if and only if it meets all conditions, and the conversion error is never reported |
| CsvValidation.AddressErrorsSay | lib/csv-validation.ts:109-119 | each error about an address is reported exactly for its reason |
| CsvValidation.AmountErrorsSay | lib/csv-validation.ts:121-131 | an amount is refused if and only if it is empty or does not write out a decimal with a digit that counts |
| CsvValidation.StartErrorsSay | lib/csv-validation.ts:133-142 | each error about the start is reported exactly for its reason |
| CsvValidation.DayErrorsSay | lib/csv-validation.ts:144-163 | each error about duration and cliff is reported exactly for its reason |
| CsvValidation.KindAndFlagErrorsSay | lib/csv-validation.ts:165-178 | each error about kind and flag is reported exactly for its reason |
| CsvValidation.ErrorsInOrder | lib/csv-validation.ts:106-180 | a row has at most one error a field, in the order of the fields |
| CsvValidation.AcceptedRowSays | lib/csv-validation.ts:241-253 | what an accepted row holds in terms of its texts: amount in stroops, start in seconds, days, kind, flag |
| CsvValidation.ValidateRow | lib/csv-validation.ts:106-180 | pushing errors field by field yields none if and only if the row meets all conditions, and never a conversion error |
| CsvValidation.AcceptedRowCanBeWorthless | lib/csv-validation.ts:123 | an accepted row is worth no stroop if and only if no digit up to the seventh decimal place counts, and every accepted row is also accepted with such an amount |
| CsvValidation.ClassifyLines | lib/csv-validation.ts:219-255 | the pushing loop yields the accepted and the rejected rows of the line outcomes |
| CsvValidation.ValidateCsv | lib/csv-validation.ts:182-258 | empty file, exactly the missing columns, more than 500 rows, or both row lists |
| CsvValidation.RowsConserved | lib/csv-validation.ts:219-257 | both lists are in file order and together hold each classified line exactly once and nothing else |
| CsvValidation.FileConserved | lib/csv-validation.ts:219-257 | for a file only blank lines are missing, and accepted rows have a cliff below the duration and a non-negative amount |
| CsvValidation.IndexOfIsFirst | lib/csv-validation.ts:207-217 | a column is found exactly when its name occurs, at the first occurrence |
| CsvValidation.RowReadsColumns | lib/csv-validation.ts:207-232 | every field is read from the first column of its name, wherever it stands, and is empty without one |
| CsvValidation.RequiredColumns | lib/csv-validation.ts:15-22 | the six columns without which a file is refused |
| CsvValidation.PlainHeader | lib/csv-validation.ts:188 | the header is read as its trimmed cells in lower case |
| CsvValidation.OutcomeCarries | lib/csv-validation.ts:219-255 | a rejected line keeps its number, fields and errors, an accepted one the row made of its fields |
| CsvValidation.SplitByAvailableBalance | lib/csv-validation.ts:269-287 | the running sum splits the rows as specified |
| CsvValidation.SplitIsLongestPrefix | lib/csv-validation.ts:263-287 | for non-negative amounts the fundable rows are the longest affordable prefix and the others the rest |
| CsvValidation.ChunkRows | lib/csv-validation.ts:296-302 | the chunks concatenate to the rows; all but the last are full and none is empty |
| RateLimit.RateLimiter.CleanupStore | lib/rateLimit.ts:16-23 | the deleting loop leaves exactly the entries whose window is not over |
| RateLimit.RateLimiter.CheckRateLimit | lib/rateLimit.ts:72-115 | sweep, window opening, counting and refusal with Retry-After |
| RateLimit.SweepInvisible | lib/rateLimit.ts:16-23 | with a clock that does not go back every decision is that of a limiter that never deletes |
| RateLimit.FirstReturnDecides | lib/rateLimit.ts:16-23 | in every run, whatever the clock does: before any request has returned to a window swept away, a decision differs from that of a limiter that never deletes if and only if the request returns to such a window and that had no admission left |
| RateLimit.ClockNeverReturns | lib/rateLimit.ts:16-23 | with a clock that does not go back no request ever does |
| RateLimit.SweepChangesDecision | lib/rateLimit.ts:16-23 | for one call on any store: the sweep changes who is admitted if and only if the two clock readings of the call enclose the end of a window that had no admission left |
| RateLimit.SweepVisibleWhenClockGoesBack | lib/rateLimit.ts:16-23 | a run with a clock going back in which the sweep changes a decision |
| RateLimit.KeysAreIsolated | lib/rateLimit.ts:72-115 | the decisions about a key are those of a run of that key's requests alone |
| RateLimit.WindowIsExact | lib/rateLimit.ts:84-95 | in each window exactly the first maxRequests arrivals are admitted |
| RateLimit.AdmissionBound | lib/rateLimit.ts:72-115 | over every run at most 2 * maxRequests - 1 admissions of a key in any closed interval of length windowMs, none for a limit of 0 |
| RateLimit.AdmissionBoundTight | lib/rateLimit.ts:72-115 | for every positive limit and window some run reaches that bound |
| RateLimit.RetryAfterHonoured | lib/rateLimit.ts:95-97 | a silent refused key is admitted exactly after the window's end; more than Retry-After suffices, and exactly Retry-After suffices if and only if the stated remainder condition holds |
| RateLimit.RetrySecondsIsLeast | lib/rateLimit.ts:97 | Retry-After is the least positive number of seconds that covers the rest of the window |
| Vesting.ClaimableInRange | components/CreateForm.tsx:310-333 | the estimate lies between 0 and the total for every kind, cliff and time |
| Vesting.NothingBefore | components/CreateForm.tsx:318 | nothing is claimable up to the start, and nothing ever without a duration |
| Vesting.CliffIsAllOrNothing | components/CreateForm.tsx:320-322 | the cliff kind gives all or nothing, by the cliff alone |
| Vesting.ClaimableMonotone | components/CreateForm.tsx:310-333 | the estimate never decreases in time |
| Vesting.ClaimableComplete | components/CreateForm.tsx:320-333 | from the end on everything is claimable, for every kind with the cliff within the duration |
| Vesting.NoCliffIsLinear | components/CreateForm.tsx:323-333 | with a cliff of 0 the two linear curves are the same |
| Vesting.CliffHoldsBack | components/CreateForm.tsx:320-333 | the linear curve with a cliff is pointwise at most the linear and at most the cliff curve |
| Vesting.CliffShiftsLinear | components/CreateForm.tsx:323-333 | it is at all times the linear curve of the remaining period started at the cliff, or the pure cliff curve |
| Vesting.ProgressMonotone | lib/stellar.ts:851-877 | of one stored record, in every state, the percentage stays in 0..100 and never goes back |
| ScheduleContract.ProgressNeverGoesBack | contracts/vestflow/src/lib.rs:2124-2180 | over every history of pauses, resumptions and claims the percentage never goes back |
| ScheduleContract.RevocationAndProgress | contracts/vestflow/src/lib.rs:2436-2455 | a revocation moves the percentage back if and only if what has vested is more than half a percent of the total short of it |
| ScheduleContract.RevocationCanGoBack | lib/stellar.ts:856-862 | a revocation that moves the card from 100 percent to 0 |
| Vesting.PauseFreezes | lib/stellar.ts:851-877 | a pause freezes the percentage from now on if and only if the schedule is revoked, or its milestones are complete or add nothing more, or it has none and has started or has no progress to show at its start |
| Vesting.MilestonesIgnorePause | lib/stellar.ts:864-871 | schedules with milestones ignore the pause; their percentage stands still if and only if it is full or no milestone to come adds anything; one that grows while paused |
| Vesting.ReachedAddsUp | lib/stellar.ts:864-869 | the percentage of milestones adds up over them, each counting from its own time on |
| Vesting.MilestonesAreGraded | lib/stellar.ts:863 | only graded schedules have milestones |
| Vesting.RevokedProgress | lib/stellar.ts:856-862 | after a revocation the card shows the percentage nearest to what had vested |
| Vesting.InstantProgress | lib/stellar.ts:871-872 | a schedule without a duration is complete from its start on |
| Vesting.ClaimsAreTelescoping | components/ScheduleCard.tsx:42-59 | if each claim paid what the card offers, any non-decreasing series of claims would take what one claim at the last time takes, never above the total |
| Vesting.OfferIsShareLeft | components/ScheduleCard.tsx:44-59 | nothing is offered before a lockup ends, then whatever of the share is unclaimed |
| ScheduleContract.VestedMonotone | contracts/vestflow/src/lib.rs:695-771 | of one record, for every kind and with overflows saturating, what has vested is within the total and never goes back |
| ScheduleContract.VestedNeverGoesBack | contracts/vestflow/src/lib.rs:2124-2520 | over every history of pauses, resumptions, claims and revocation on a running clock what has vested never goes back |
| ScheduleContract.PaymentsAreCovered | contracts/vestflow/src/lib.rs:2364-2510 | over every such history payments never exceed the total, are all of it after a revocation, and what is held covers what can be claimed at any later time |
| ScheduleContract.RevokedWasRevocable | contracts/vestflow/src/lib.rs:2444-2449 | over every history only revocable schedules are revoked |
| ScheduleContract.RevokeSettles | contracts/vestflow/src/lib.rs:2451-2505 | revoking a revocable schedule gives the beneficiary all that has vested and the grantor the rest |
| ScheduleContract.PauseStops | contracts/vestflow/src/lib.rs:2113-2138 | from the moment of a pause on nothing more vests |
| ScheduleContract.PauseDelays | contracts/vestflow/src/lib.rs:2148-2180 | a pause that has been resumed puts everything off by exactly its length |
| ScheduleContract.GradedIsShare | contracts/vestflow/src/lib.rs:753-768 | a graded schedule gives the reached share of 10000 basis points rounded down, and all of it for all of them |
| ScheduleContract.GradesAddUp | contracts/vestflow/src/lib.rs:753-760 | grades add up, each counting from its offset on |
| ScheduleContract.ClaimsAreTelescoping | contracts/vestflow/src/lib.rs:2364-2420 | after any such history a claim leaves the beneficiary with what that claim alone, without the earlier ones, would have brought |
| ScheduleContract.CurveIsContract | contracts/vestflow/src/lib.rs:695-755 | the contract never gives less than the exact curve of the preview, and gives the same if and only if no product overflows and it is not the first second of a schedule with an empty cliff |
| ScheduleContract.SafeOfferIsPaid | components/ScheduleCard.tsx:58-59 | at the times at which the card is safe the contract pays what the card offers in full |
| Vesting.CardTracksLinear | components/ScheduleCard.tsx:58 | at all times, for every kind that runs with time and paused or not, the card's amount is within half a percent of the total, plus one stroop, of the linear amount |
| Vesting.CardIsSafe | components/ScheduleCard.tsx:58 | for each of the kinds Linear, Cliff and LinearWithCliff the card never shows more than has vested, whatever the total, if and only if the stated condition on active time, duration and cliff holds: for linear schedules, that the percentage is rounded down; otherwise it overstates every total from a stated size on |
| Vesting.OfferIsSafe | components/ScheduleCard.tsx:58-59 | what the card offers is covered by what has vested and is unclaimed, for all totals, if and only if the lockup is on or that condition holds |
| Vesting.CardExcess | components/ScheduleCard.tsx:58 | the card overstates by at most the cliff's share of the total plus half a percent and one stroop |
| Vesting.CardIgnoresCliff | components/ScheduleCard.tsx:58-59 | a linear schedule with a cliff, out of its lockup and at an exact percentage, whose card offers 600 where 200 has vested |
| Vesting.CardCanOverstate | components/ScheduleCard.tsx:58 | a schedule whose card shows more than has vested |
| Vesting.RateDrift | lib/streamHealth.ts:14-18 | the exact amount is rate times seconds plus the share of the remainder |
| Vesting.RateBounds | lib/streamHealth.ts:14-18 | a rate-driven counter never overstates and lags less than one stroop per second |
| Vesting.RateExact | lib/streamHealth.ts:14-18 | the counter is exact throughout if and only if the duration divides the total |
| Vesting.StoppedRate | lib/streamHealth.ts:15-16 | a stopped stream has no rate |
| Vesting.BalanceAndVested | lib/streamHealth.ts:20-24 | what is vested and what is still in the stream make up the total |
| Vesting.ActiveUntilMaxEnd | lib/streamHealth.ts:6-12 | the active time has reached the duration if and only if the schedule's clock has reached the latest end time, past pauses included |
| Vesting.BalanceExhausted | lib/streamHealth.ts:6-24 | a linear stream is exhausted if and only if it was empty or its latest end, which past pauses put off, has come before any pause that is still on |
| Stroops.StroopsRoundTrip | lib/stellar.ts:839-844 | parsing a printed amount gives it back if and only if it is not negative; negative ones are rejected |
| Stroops.XlmToStroopsIsFloor | lib/stroops.ts:4-13 | the result is the floor of the decimal times 10^7, equal to the general function at 7 decimals |
| Stroops.ParsesExactly | lib/stroops.ts:6-12 | the parser accepts the texts of decimals, all of them and nothing else, and yields what they denote |
| Stroops.WholeAmounts | lib/stroops.ts:4-37 | a whole amount typed without a point is that many XLM, and that many tokens for any number of decimals |
| Stroops.RejectedAmounts | lib/stroops.ts:23-30 | no amount is returned if and only if the decimals are out of range or the text is no decimal |
| Stroops.PrintedCanonically | lib/stellar.ts:839-844 | a non-negative amount is printed without leading zeros, and without trailing zeros after the point |
| BigInts.TruncatingDivision | lib/stellar.ts:839-844 | quotient and remainder make up the dividend, and the remainder has its sign |
| Stroops.TokenAmountIsFloor | lib/stroops.ts:23-37 | for 0 to 18 decimals the result is the exact floor if and only if decimals is positive or the fraction is absent or starts with 0 |
| Jwt.PaddingRebuilt | lib/jwt.ts:25-29 | the padding rebuilt from the length modulo 4 is the one that encoding stripped |
| Jwt.Base64UrlRoundTrip | lib/jwt.ts:17-29 | decoding undoes encoding on every byte string |
| Jwt.StandardAlphabet | lib/jwt.ts:17-23 | the alphabet is that of table 1 of RFC 4648 |
| Jwt.SextetsAreBits | lib/jwt.ts:17-23 | four sextets are three bytes as one number of 24 bits, fewer bytes are padded with zero bits |
| Jwt.Base64IsText | lib/jwt.ts:17-23 | base64 is those sextets in the alphabet, padded to groups of four |
| Jwt.Base64UrlIsText | lib/jwt.ts:17-23 | the url form has minus and underscore for plus and slash, and no padding |
| Jwt.TokenParts | lib/jwt.ts:45-50 | a generated token splits into exactly its three parts |
| Jwt.GeneratedTokenVerifies | lib/jwt.ts:36-92 | a generated token yields its payload if and only if it has not expired, for every MAC |
| Jwt.VerifiesExactly | lib/jwt.ts:58-92 | for every token, forged ones included, verification yields a payload if and only if the token is three dot-free parts, the third decodes to the MAC of the first two, and the second holds that payload, not expired |

## Left out

- BatchClaims.BatchState: the contract's token transfers, authorisation, `reclaim_batch` and the creation of the schedule record are not modelled; a claim is reduced to its checks, the claimed leaf and the remaining balance.
- MerkleBatch.BuildBatchFromRows: hexadecimal and decimal printing of the output record is left out, entries hold the values.
- SseWorker.Worker: opening, aborting and reconnecting the stream (`connectStream` before the loop, `closeStream`, `scheduleReconnect`) and the CONNECTED message; that there is only one connection is not claimed, since an aborted run clears the controller of its successor. Byte decoding of chunks is left out, chunks are text.
- SseWorker.Notification: ids are integers, and the fields other than the id are one opaque text.
- ClaimableWorker.Unfold: the client is modelled while it is mounted.
- ClaimableWorker.Step: rendering is reduced to commits and due effects; messages always have the expected shape, so the guards against malformed data are left out.
- CsvValidation.ValidateRow: `Number` is exact on digit strings, without the rounding of large values and the underflow of tiny ones; error texts are reduced to their field and kind; one clock reading serves a whole file.
- CsvText.PrintTable: the number and date formatting of the schedule exports is left out, cells are given as text.
- CsvText.ImporterTable: `parseSchedulesCSV` and `parseBulkGiveCSV` are modelled up to the cells of each line and their trimming; picking columns, removing thousands separators and the row checks are left out.
- RateLimit.RateLimiter: extraction of the client address, exempt paths and the response object; the limit and window are natural numbers.
- ScheduleContract.Apply: performance milestones, `extend_duration`, transfers of roles, merging, delegation and schedules with several tokens are left out; times are unbounded integers.
- Vesting.CardIsSafe: graded schedules are left out, since how an indexer turns the contract's grades into the milestones of the card is not part of this model.
- Vesting.VestingProgress: floating point rounding is replaced by exact rationals with halves rounded up.
- Jwt.DecodeBase64: `Buffer`'s decoder is modelled as skipping characters outside the alphabet and stopping at padding; constant-time comparison, the secret and the environment are not modelled.
- Strings are sequences of characters; no modelled operation looks inside a surrogate pair.
- User interface, storage, wallet signing, RPC, the indexer's database, e-mail and push, and the server's connection counting: plumbing, or only easy claims.
