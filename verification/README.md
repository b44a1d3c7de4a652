# lode: what its shared store may rely on

`lode` keeps a personal knowledge base in one SQLite file that several processes change at once: a
save path, workers, batch submissions, connectors. This project models the parts whose correctness
spans many steps and proves what they promise over every run.

| file | models |
|---|---|
| `Jobs.dfy`, `Claims.dfy` | the work queue's rows and writes, and every interleaving of workers on stale reads |
| `Clock.dfy`, `Calendar.dfy` | the ratcheted clock and its string-compared timestamps |
| `Externals.dfy`, `IngestTransactions.dfy` | snapshot ingest, atomically and statement by statement under SQLite's write lock |
| `Hashing.dfy`, `Utf8.dfy` | content ids and the bytes they are hashed from |
| `Redact.dfy`, `Faithfulness.dfy`, `Gate.dfy`, `Egress.dfy`, `Targets.dfy`, `CitedAnswer.dfy`, `AskPrompt.dfy`, `NonInterference.dfy` | a question on its way to the model and back: redaction, withholding, quote checking, offsets |
| `Chunking.dfy`, `Decimal.dfy` | the passage chunker |
| `Fences.dfy`, `DocsChunker.dfy` | fences (section 4.5 of CommonMark) and the documentation chunker |
| `Query.dfy`, `Urls.dfy`, `UrlText.dfy`, `UrlReading.dfy` | URL canonicalisation (sections 6.2.2.1 and 6.2.3 of RFC 3986; `application/x-www-form-urlencoded`, section 5 of the WHATWG URL Standard) |
| `Enrichment.dfy`, `Batch.dfy`, `BatchRuns.dfy` | AI rows written around user rows, the batch route that produces them, and a job across several batches |
| `IndexLegs.dfy`, `IndexSecrets.dfy`, `IndexExamples.dfy` | the lexical and vector legs: saves, repairs and embeds, and when their rows hold one text and no secret |
| `SharedEmbedder.dfy` | the embedder that threads share |
| `Text.dfy` | strings as Python sees them |

Modules build on each other: the batch route uses the queue's table and its protocol, the egress gate's payloads and
the enrichment tables; Ask uses redaction, the gate, the locator and the chunker's ranges; the index
legs use redaction and the chunker.

Code that updates rows or fields is a class or a method with a loop, proved equal to a function of
the old state; the theorems are about those functions. Interleavings (queue workers, ingest
transactions, embedder threads) are state machines with one step per statement or transaction.

What the outside world decides is a parameter: the model provider, the entailment scorer, embedding
vectors, wall clock and monotonic clock, the outcome of a batch, of a probe, of a construction. All
theorems hold for every such choice.

## Where the code does not meet its promise

Each line names the theorem that says exactly when the promise holds, and a lemma at an input where
it does not.

- A secret that redaction keeps out of the index becomes searchable once the repair step
  (`src/lode/reconcile.py:597-599`) or the reindex command has indexed the note's stored body. No
  searchable text holds a match after every run if and only if no passage of the stored body does
  (`IndexSecrets.FtsIsAlwaysCleanIff`), and no passage row if and only if none does in text or parent
  block (`IndexSecrets.RowsAreAlwaysCleanIff`); `IndexSecrets.FtsIsCleanIff` and
  `IndexSecrets.RowsAreCleanIff` say it of each run. The input is
  `IndexSecrets.RepairMakesASecretSearchable`.
- After such a repair the legs hold different texts. They agree after every run if and only if no index
  pattern matches the stored body (`IndexSecrets.LegsAlwaysAgreeIffClean`; of each run,
  `IndexLegs.LegsAgreeIffHarmless`). The input is the same.
- A batch's results can be charged to a job twice: the handle is never cleared, so a job that failed
  under one handle and is claimed again is in flight under it until the next handle is attached. A
  collected handle takes the job again if and only if it is collected in that window
  (`BatchRuns.ResultsAreUsedAgainIff`), and there is such a window if and only if the job is claimed
  again (`BatchRuns.HarmlessAtAnyTimeIffNeverReclaimed`). The input is `BatchRuns.OneResultChargesTwice`.
- A late success is lost when it reverts to an older body, whose row keeps its old time
  (`Externals.RevertDefeatsTheGuard`). A guarded tombstone is skipped if and only if the last ingest
  with an effect on its external left a head from the guard's time or later
  (`Externals.TombstoneIsSkippedIffLastIngestIsFresh`); a revert does so if and only if the reverted
  row is from then or later (`Externals.RevertDefeatsTheGuardIffOld`).
- URL canonicalisation is not idempotent on all inputs. It is if and only if the host in the text has
  a colon or no bracket, and a parameter is kept or the path without its trailing slashes does not end
  in white space (`Urls.IdempotentIffSettled`). Inputs: `http://[v1.a[b]/` (`Urls.StrayBracketExample`)
  and `http://h/a /` (`Urls.SpaceBeforeSlashDoesNotSettle`). URLs picked out of notes hold no white
  space; the final URL of a redirect may.
- How often a hidden target is listed as withheld depends on hidden text: two runs list it equally
  often if and only if their contexts hold equally many distinct blocks of it
  (`NonInterference.WithheldCountsAgreeIffBlocksDo`; the input is
  `NonInterference.WithheldCountDependsOnHiddenText`). Which targets are listed does not depend on it.
- A context block is sent unless its target resolves as no_egress, so a block of a target that the
  store does not know is sent (`NonInterference.SentUnlessHidden`; the input is
  `NonInterference.UnknownTargetIsSent`).
- `dead` is not terminal: a dead row is changed by exactly two writes, the worker's success arm and the
  attaching of a batch handle, which test no state
  (`ClaimProtocol.DeadIsTerminalButForUnguardedWrites`, `ClaimProtocol.UnguardedAttachRevivesTheDead`).
  A step keeps the queue's invariant if and only if its claim's stamp is new to the row and its handle
  goes to a running row (`ClaimProtocol.DoKeepsInvIffGood`).
- Re-chunking into fewer passages leaves old passage rows behind; the rows are the new passages if and
  only if these are no fewer (`IndexLegs.RechunkingABodyIsCleanIffNoFewer`; the input is
  `IndexExamples.RechunkingLeavesARowBehind`).

Lemmas whose comment begins with "Remark" read one branch back and are not results.

## Model

| member | source | states |
|---|---|---|
| JobQueue.JobTable.EnqueueDeriveJobs | src/lode/jobs.py:73-136 | one insert-or-ignore per kind: the table is that function of the old one, old rows are untouched, live keys stay unique, and afterwards every kind has a live job for the target |
| JobQueue.JobTable.CasUpdateRunning | src/lode/jobs.py:242-296 | the row is rewritten, and true returned, exactly when it was running under this very claim; otherwise nothing changes |
| JobQueue.JobTable.RecordJobFailure | src/lode/jobs.py:299-391 | new count, dead-letter verdict and claim-lost verdict, each with its exact condition; the row it leaves, next due after the base delay doubled once per earlier failure or the cap, and no other row touched |
| JobQueue.InsertKeeps | src/lode/jobs.py:86-94 | inserting keeps every row and the one-live-row-per-key rule, and leaves a live row for the key |
| JobQueue.ReEnqueueIsNoOp | src/lode/jobs.py:73-136 | enqueueing while the jobs are live changes nothing |
| JobQueue.BackoffGrowsToCap | src/lode/jobs.py:200-214 | delays are positive, never shrink from one failure to the next, double until the cap and never pass it |
| ClaimProtocol.ApplyKeepsOk | src/lode/jobs.py:258-268 | every write of every worker, acting on any earlier read of the row, keeps the row in agreement with a ledger of its claims and how each ended |
| ClaimProtocol.EndedClaimCannotWrite | src/lode/jobs.py:299-391 | a worker whose claim has been ended changes nothing, whatever states the row has cycled through since |
| ClaimProtocol.AttachOkIffRunning | src/lode/enrich.py:725-731 | attaching a handle to a row keeps it in agreement with its ledger if and only if the row is still running |
| ClaimProtocol.ClaimOkIffFresh | src/lode/worker.py:475-530 | claiming a row keeps it in agreement with its ledger if and only if no earlier claim of it had the same stamp |
| ClaimProtocol.FailMatchesRecordJobFailure | src/lode/jobs.py:299-391 | the protocol's failure step is this method: same row, and its caller sees dead-lettered without claim-lost exactly when the ledger gains a death |
| ClaimProtocol.JobsAreClaimableWhenDue | src/lode/worker.py:475-530 | a new job is claimable from the instant it was enqueued at; a failed one is reset to pending, and then claimable, from the instant it is next due, and is left alone before |
| ClaimProtocol.DoKeepsInv | src/lode/worker.py:324-631 | every step of any worker (enqueue, claim, stale reclaim, reset, failure, batch revert, success) keeps every row's agreement, the uniqueness of live keys, and that live rows carry no prompt version |
| ClaimProtocol.DoKeepsInvIffGood | src/lode/worker.py:324-631 | the two conditions on a step are exact: a step keeps all that if and only if its claim's stamp is new to the row and its handle goes to a running row |
| ClaimProtocol.QueuePromises | src/lode/jobs.py:217-391 | over every interleaving from an empty queue: each claim ends by at most one write, attempts equal the claims that ended in failure and never pass the limit, at most one dead-letter is seen per job, live keys are unique, and live rows carry no prompt version |
| ClaimProtocol.RepeatedStampEndsAClaimTwice | src/lode/config.py:486-500 | why stamps must differ: with a repeated stamp a stale worker ends a claim that is not its own |
| ClaimProtocol.UnguardedAttachRevivesTheDead | src/lode/enrich.py:725-731 | a submission that outlives its claim brings a dead job back and takes it past the attempt limit |
| QueueClock.Clock.Now | src/lode/jobs.py:159-192 | the n-th reading is the greatest of wall minus monotonic over all readings so far, plus the monotonic clock now, for any steps of the wall clock |
| QueueClock.ReadingsNeverDecrease | src/lode/jobs.py:159-192 | a later reading is never less, and no reading lags the wall clock it was taken at |
| QueueClock.TimestampsCompareInTimeOrder | src/lode/jobs.py:144-151 | for years 1000 to 9999 the millisecond strings compare, character by character, exactly as the instants do, and are equal exactly when the milliseconds are |
| QueueClock.EnqueuedJobIsDue | src/lode/jobs.py:112-136 | a job stamped at one reading passes the claim's string test at that reading and every later one of the process |
| Calendar.DateOfIsGregorian | src/lode/jobs.py:144-151 | day numbers become dates of the Gregorian calendar, each day in its own month and year |
| Calendar.DateTimeAddsUp | src/lode/jobs.py:144-151 | days, hours, minutes, seconds and microseconds add up to the instant |
| Calendar.IsoReadsBack | src/lode/jobs.py:144-151 | in years of four digits the printed fields read back as the date, the time and the milliseconds |
| Hashing.FirstFieldIsDetermined | src/lode/hashing.py:49-52 | the first field of a framed list can be read off its bytes |
| Hashing.FramedIs | src/lode/hashing.py:49-52 | eight bytes, most significant first, that give the length of the UTF-8 bytes that follow |
| Hashing.FramingIsUniquelyDecodable | src/lode/hashing.py:49-81 | equal framed encodings come from equal field lists |
| Hashing.IdsStandForTheirInputs | src/lode/hashing.py:84-113 | equal hash inputs come from equal ids: no version input is a snapshot input, and every field is determined |
| Hashing.ShiftingCharactersChangesTheInput | src/lode/hashing.py:49-52 | moving characters across a field boundary keeps the concatenation and changes the hash input |
| Utf8.DecodeUndoesEncode | src/lode/hashing.py:49-52 | the field bytes determine the field: UTF-8 (RFC 3629) decoding with replacement undoes encoding |
| Externals.ExternalTables.IngestSnapshot | src/lode/externals.py:280-492 | the statements, in order, take the tables to the atomic ingest of the old tables and return its outcome |
| Externals.IngestEffect | src/lode/externals.py:402-484 | one ingest files at most one row, under its own id, moves only its own external's head, and changes no stored column but the time of a fetch |
| Externals.IngestRefinesMirror | src/lode/externals.py:433-484 | one ingest is one step of a plain map from external to last accepted body |
| Externals.RunRefinesMirror | src/lode/externals.py:433-484 | over any run: heads hold exactly the last accepted body, the rows are exactly the distinct bodies ever accepted, every head is a row of its own external |
| Externals.IngestKeepsColumns | src/lode/externals.py:194-226 | a new external gets the source type of the call and the default no_egress flag; every external already there keeps both; no other external is added |
| Externals.ColumnsAreOfTheFirstCall | src/lode/externals.py:194-226 | over any run an external has the source type and the flag that its first call gave it |
| Externals.EmbedEnqueuedExactly | src/lode/externals.py:482-484 | an embed job is enqueued for exactly the accepted ok ingests that are not deduplicated |
| Externals.ReasonRoundTrip | src/lode/externals.py:162-191 | the reason of a tombstone body is read back if and only if it is non-empty and on one line |
| Externals.TombstoneTextIs | src/lode/externals.py:162-191 | the form of a tombstone body, and the fallback reason for every body without it |
| Externals.HeadStatusIsFirstStatus | src/lode/externals.py:473-481 | after an accepted ingest the head shows the status asked for, unless the same body was first filed under the other one |
| Externals.TombstoneIsSkippedIffLastIngestIsFresh | src/lode/externals.py:433-484 | exactly when a late success is kept, over any run: a tombstone guarded by g changes nothing if and only if the last ingest with an effect on its external was a real fetch of the current or a new body at or after g, or of an older body whose row is from g or later |
| Externals.RunIsFreshIff | src/lode/externals.py:433-484 | after any run the head is a real fetch from g or later exactly when the last ingest with an effect on it made it one |
| Externals.GuardFiresIffFresh | src/lode/externals.py:433-442 | a guarded ingest is skipped, changing nothing, exactly when the head is a real fetch from the guard's time or later |
| Externals.LateSuccessIsKept | src/lode/externals.py:439-484 | after an ok ingest that makes the head fresh, a tombstone guarded by g changes nothing, whatever ingests come between, as long as each passes the external by or makes the head fresh again |
| Externals.RevertDefeatsTheGuardIffOld | src/lode/externals.py:473-481 | an ok ingest of a body that is neither current nor new leaves a guarded tombstone to land if and only if that body's row is from before the guard's time, however late the ingest is |
| Externals.RevertDefeatsTheGuard | src/lode/externals.py:473-481 | such a run: A at 1, B at 5, A again at 9, and a tombstone guarded by 8 lands |
| IngestTransactions.DoKeepsInv | src/lode/externals.py:402-484 | every statement, commit or crash of every connection keeps: only the lock holder is inside, and its work rests on what is committed now |
| IngestTransactions.InterleavingsAreAtomic | src/lode/externals.py:402-484 | whatever the interleaving, the committed tables are whole ingests one after the other, and each caller got the outcome its ingest has at its place |
| IngestTransactions.HeadReadIsStillCurrent | src/lode/externals.py:434-441 | the head, status and time a transaction read are still the committed ones when it decides and while it writes |
| IngestTransactions.ReadingBeforeTheLockLosesASuccess | src/lode/externals.py:403-432 | with the head read before the lock-taking upsert, a deduplicating success is lost under a tombstone |
| Faithfulness.NormalizeIsNorm | src/lode/faithfulness.py:67-74 | collapse-then-strip equals a normal form read off character by character |
| Faithfulness.FlexEndComplete | src/lode/faithfulness.py:103-113 | the tokens joined by white space match a stretch of the body in at most one way, and the search finds it |
| Faithfulness.LocateAgreesWithNormalizedSearch | src/lode/faithfulness.py:77-123 | a span with a visible character is found exactly when its normalised text is a substring of the normalised body; the slice found normalises to the span; a hint makes no difference to either |
| Faithfulness.HintKeepsTheVerdict | src/lode/faithfulness.py:106-123 | a hint never makes a match appear or disappear, for any span |
| Faithfulness.HintedIsNearest | src/lode/faithfulness.py:115-123 | with a hint the result is a listed match, and no listed match starts nearer to the hint |
| Faithfulness.FindAllMissesNone | src/lode/faithfulness.py:115-119 | every match of a pattern starts at or inside a listed one |
| Faithfulness.FindAllIsLeftToRight | src/lode/faithfulness.py:115-119 | listed matches come from left to right and none overlaps another |
| Faithfulness.ExactOccurrenceWins | src/lode/faithfulness.py:106-113 | without a hint the leftmost exact occurrence wins over every reflowed one |
| Gate.WordsAreWholeWords | src/lode/faithfulness.py:161-169 | the word set is exactly the maximal runs of word characters: no piece of a longer number or name is in it |
| Gate.ContractionsAre | src/lode/faithfulness.py:195-212 | the negative contractions found are exactly the whole runs of word characters that end in n, an apostrophe of either kind and a final t |
| Gate.CoupledIffNoDrift | src/lode/faithfulness.py:198-245 | a claim is coupled to a quote if and only if it has no word that the quote lacks and the quote no negation that the claim lacks |
| Gate.SurvivesIff | src/lode/gate.py:103-135 | a claim survives if and only if every quote occurs in its body, and either it says something and some quote does not drift from it, or the scorer reaches the threshold |
| Gate.DriftNeedsTheScorer | src/lode/faithfulness.py:198-245 | a claim that has a word, or lacks a negation, unlike each of its quotes survives only at or above the scorer's threshold |
| Gate.MissingBodyDropsTheClaim | src/lode/faithfulness.py:144-158 | a claim that cites a body the gate was not given is dropped whatever the scorer says |
| Gate.SurvivorsSurvive | src/lode/gate.py:103-135 | the gate keeps exactly the claims that pass their stages |
| Gate.SurvivorsKeepTheirOrder | src/lode/gate.py:130-134 | each survivor stands between the survivors of the claims before it and those of the claims after it, as often as it comes |
| Redact.RedactCounting | src/lode/redact.py:44-56 | text and count are those of the substitutions applied in order |
| Redact.SubReplacesOnlyMatches | src/lode/redact.py:44-56 | a substitution replaces disjoint matches in order, counts them, and keeps all other text |
| Redact.EverySecretIsTouched | src/lode/redact.py:44-56 | every match in the input starts inside a replaced stretch |
| Redact.RedactionIsComplete | src/lode/redact.py:44-56 | after all patterns no pattern matches anywhere in the result |
| Redact.RedactionIsIdempotent | src/lode/redact.py:44-56 | a second run replaces nothing and counts nothing |
| Redact.RedactionCountsMarkers | src/lode/redact.py:44-56 | the count is exactly how many more opening brackets, that is markers, the result holds than the input |
| Redact.ShippedRedaction | src/lode/config.py:99-116 | both hold of the shipped seed set, modelled pattern by pattern |
| Redact.SeedsAre | src/lode/config.py:99-116 | the seed set is these eight |
| Redact.PemHeaderMatches | src/lode/config.py:101-101 | the private-key headers, one text per kind of key |
| Redact.AwsKeyIdMatches | src/lode/config.py:103-103 | the texts that the pattern matches |
| Redact.GithubTokenMatches | src/lode/config.py:105-105 | the texts that the pattern matches |
| Redact.GithubPatMatches | src/lode/config.py:107-107 | the texts that the pattern matches |
| Redact.SlackTokenMatches | src/lode/config.py:109-109 | the texts that the pattern matches |
| Redact.StripeKeyMatches | src/lode/config.py:111-111 | the texts that the pattern matches |
| Redact.GoogleKeyMatches | src/lode/config.py:113-113 | the texts that the pattern matches |
| Redact.AnthropicKeyMatches | src/lode/config.py:115-115 | the texts that the pattern matches |
| Redact.MarkerWordMustBeSafe | src/lode/redact.py:34-56 | a pattern for a piece of the marker's word matches inside its own replacement |
| Egress.PartitionEgress | src/lode/egress.py:112-126 | each side is the items with that flag, in order |
| Egress.PartitionIsExact | src/lode/egress.py:112-126 | every item lands on its side as often as it came, and never on the other |
| Egress.GateQaEgress | src/lode/egress.py:237-274 | payloads are the redacted sendable passages in order, the withheld targets come back, and exactly one audit row is appended |
| Egress.NoSecretIsSent | src/lode/egress.py:237-274 | every payload is the redaction of a passage that may leave, and no pattern matches in it |
| Egress.CountsAreLastCounts | src/lode/egress.py:262-269 | the audit row has one count per target that lost text, that of its last such passage |
| Egress.AuditRowIs | src/lode/egress.py:237-274 | the audit row: purpose, model, one target per payload in order, and no counts where nothing was redacted |
| CitedAnswer.ResolveTargets | src/lode/cited_answer.py:317-371 | the map is note rows overlaid with external rows, each joined with its owner's flag and, for externals, the scope rules |
| CitedAnswer.ResolvesTo | src/lode/cited_answer.py:317-371 | for every id: it resolves if and only if its row and its owner are in the store under a tier of the context, to that body and to its owner's flag, or for an external a scope rule |
| CitedAnswer.StampBodyOffsets | src/lode/cited_answer.py:226-279 | every support carries the first hit among its target's passage ranges, and whatever the model had put there is gone |
| CitedAnswer.PySliceIs | src/lode/cited_answer.py:259-268 | slices with negative and overlong bounds as Python reads them |
| CitedAnswer.Ask | src/lode/cited_answer.py:121-223 | the whole loop: claims shown, gated and stamped against the bodies that may be sent and those that tools fetched, or the provider's error; withheld targets; and the send's one audit row, which is there either way |
| AskPrompt.PromptShowsQuestionAndSources | src/lode/qa.py:380-415 | the prompt starts with the question and after it holds every payload that the audit row lists, in order and apart, each in a source tag with its target id, of kind external exactly when the last distinct block of that target comes from an external tier |
| AskPrompt.PromptShowsEveryPayload | src/lode/qa.py:380-415 | the text of every payload is in the prompt, character by character |
| NonInterference.HiddenTextHasNoInfluence | src/lode/cited_answer.py:173-279 | two runs that differ only in bodies and passage text of targets resolved as no_egress give equal payloads, prompts, audit rows, surviving claims with offsets, and withheld targets, for every provider and scorer and whatever tools fetched that may be sent |
| NonInterference.WithheldOncePerBlock | src/lode/cited_answer.py:191-205 | a hidden target is listed as withheld once for each distinct block of it in the context |
| NonInterference.WithheldCountsAgreeIffBlocksDo | src/lode/cited_answer.py:191-205 | two runs that differ only in hidden text list a hidden target equally often if and only if their contexts hold equally many distinct blocks of it |
| NonInterference.WithheldCountDependsOnHiddenText | src/lode/cited_answer.py:191-205 | two such runs with different counts: equal blocks count once, different ones twice |
| NonInterference.SentUnlessHidden | src/lode/cited_answer.py:191-205 | a context block is sent, redacted, if and only if its target does not resolve as no_egress; an unknown target does not |
| NonInterference.UnknownTargetIsSent | src/lode/cited_answer.py:191-205 | such a block: with no rows in the store, the one block of the context is sent |
| NonInterference.BodiesHoldCleared | src/lode/cited_answer.py:206-207 | the gate's bodies are exactly those of context targets that resolve and may be sent |
| NonInterference.ShownQuotesWereSent | src/lode/cited_answer.py:191-223 | every quote shown stands, up to white space, in the body of a snapshot that a tool fetched, or in the stored body of a target whose text was among the payloads |
| NonInterference.WithheldAreTheHiddenTargets | src/lode/egress.py:106-109 | the withheld targets are exactly the context's no_egress targets |
| NonInterference.OffsetIsThePlace | src/lode/cited_answer.py:259-268 | the stamped offset is the quote's place in the first retrieved passage that holds it, if and only if that passage's range does not start below zero |
| Chunking.Segment | src/lode/chunking.py:117-158 | the loop over lines gives the blocks of its recursive specification |
| Chunking.SegmentHoldsTokens | src/lode/chunking.py:117-158 | blocks come in order and apart, none without a token, and hold every token of the body |
| Chunking.BlocksAreLines | src/lode/chunking.py:117-158 | every block is one heading line, one list-item line, or a whole run of ordinary lines, without its last line end |
| Chunking.HeadingIff | src/lode/chunking.py:50-51 | a heading is one to six number signs followed by white space |
| Chunking.ListItemIff | src/lode/chunking.py:53-55 | a list item is, after white space, a bullet or a number with a point or a bracket, followed by white space |
| Chunking.SplitBlock | src/lode/chunking.py:186-203 | the window loop gives the block's spans |
| Chunking.WindowsInRange | src/lode/chunking.py:186-203 | windows run from first to last token, hold at most N, start one step apart, and overlap by exactly N minus the step |
| Chunking.BlockSpanHoldsWindow | src/lode/chunking.py:186-203 | the k-th span of a block holds exactly the k-th window of its tokens |
| Chunking.ParentHoldsBlock | src/lode/chunking.py:161-183 | the section found for a block holds the whole block, starts at the start of the body or of a heading, ends at the next heading or the end of the body, and has no heading in between |
| Chunking.Chunk | src/lode/chunking.py:206-248 | the passage loop gives the passages of the specification |
| Chunking.CharRangeRoundTrip | src/lode/chunking.py:81-95 | a stored range parses back to its offsets |
| Chunking.PassagesAreWellCut | src/lode/chunking.py:206-248 | number, id, text as the slice its range names, range parsing back, and the stripped text a substring of its parent block |
| Chunking.PassagesCarryTheirSection | src/lode/chunking.py:161-183 | the parent block of every passage is the trimmed text of the one section its block stands in |
| Chunking.PassagesCoverTheBody | src/lode/chunking.py:206-248 | passages hold consecutive stretches of the body's tokens, at most N each, start strictly later each time, and share exactly min(overlap, N - 1) inside a block and nothing across blocks |
| Chunking.ChunkingLosesNothing | src/lode/chunking.py:206-248 | joining the passages' tokens without the shared ones gives exactly the body's tokens in order |
| Fences.FenceFlags | src/lode/fence_parsing.py:62-94 | the loop flags exactly the lines before which a fence is open |
| Fences.InsideIffOpened | src/lode/fence_parsing.py:43-94 | a line is inside a fence exactly when an earlier line outside every fence opens one that nothing between closes |
| Fences.MarkersAre | src/lode/fence_parsing.py:40-59 | which lines open a fence, with which marker, and which close it |
| DocsChunker.DeepestHeadingLevel | scripts/docs_index_chunker.py:98-107 | the result is the deepest heading level outside fences |
| DocsChunker.SplitRange | scripts/docs_index_chunker.py:110-130 | collecting boundaries and pairing them up gives the same ranges as one scan |
| DocsChunker.HardSplit | scripts/docs_index_chunker.py:152-193 | the rungs in order: bullets, then paragraphs of each part |
| DocsChunker.LinesAreWhat | scripts/docs_index_chunker.py:41-42 | heading levels, bullets, blank lines and paragraph starts, character by character |
| DocsChunker.RungsAre | scripts/docs_index_chunker.py:133-214 | the boundaries of each rung, and the size that makes a unit oversized |
| DocsChunker.ChunkFile | scripts/docs_index_chunker.py:196-238 | the units are the slices of the file's lines at the unit ranges of its deepest level |
| DocsChunker.UnitsTile | scripts/docs_index_chunker.py:110-238 | units leave no gap, do not overlap, are not empty and come in order |
| DocsChunker.UnitsAreWellCut | scripts/docs_index_chunker.py:110-238 | every unit starts at the top or outside fences, holds no further primary boundary, and over 16384 bytes holds no bullet and no paragraph start either |
| DocsChunker.FittingRangesAreUnits | scripts/docs_index_chunker.py:110-238 | a range of the first split that is not oversized is a unit as it is |
| DocsChunker.BodiesRebuildLines | scripts/docs_index_chunker.py:222-238 | bodies joined by newlines are the lines joined by newlines |
| DocsChunker.LinesHoldNoNewline | scripts/docs_index_chunker.py:196-201 | no line holds a newline, so the joined text determines the lines |
| DocsChunker.WithoutBreakIs | scripts/docs_index_chunker.py:196-201 | a line loses exactly its line end, of one character or two |
| Query.QuoteRoundTrip | src/lode/drawdown.py:545-550 | decoding a quoted name or value gives it back, for every string |
| Query.UnquoteAroundOthers | src/lode/drawdown.py:545-550 | text with characters outside ASCII is decoded stretch by stretch, and left alone without a percent sign |
| Utf8.DecodesOrReplaces | src/lode/drawdown.py:545-550 | of any bytes: a step of the decoder takes the whole encoding of the character it gives, or, where none stands there, gives U+FFFD for the longest start of an encoding, one byte at least |
| Query.QueryRoundTrip | src/lode/drawdown.py:545-550 | the query parser undoes the query printer on every list of pairs |
| Query.SortForgetsOrder | src/lode/drawdown.py:545-549 | two lists of pairs sort alike exactly when they hold the same pairs as often |
| Query.CanonicalQueryIsStable | src/lode/drawdown.py:545-550 | a canonical query is its own canonical query |
| Urls.HostOfNetloc | src/lode/drawdown.py:524-537 | host and port are read back from a printed authority, brackets included |
| Urls.CanonicalOfTyped | src/lode/drawdown.py:509-552 | the canonical text of a well-formed URL, component by component |
| Urls.TextIsCanonical | src/lode/drawdown.py:509-552 | whatever text comes in, the canonical URL is well formed and its own canonical form |
| Urls.IdempotentIffSettled | src/lode/drawdown.py:509-552 | for every text that is accepted: canonicalising the result changes nothing if and only if the host read from the text has a colon or no bracket, and a parameter off the blocklist is left or the path, without its trailing slashes, is empty or ends visibly |
| Urls.StrayBracketsDoNotSettle | src/lode/drawdown.py:524-537 | every bracketed host with a bracket and no colon is accepted the first time and malformed the second |
| Urls.StrayBracketExample | src/lode/drawdown.py:524-537 | such a host: v1.a[b |
| Urls.SpaceBeforeSlashDoesNotSettle | src/lode/drawdown.py:539-543 | http://h/a followed by a space and a slash takes two rounds |
| Urls.SameKeyIffSameSource | src/lode/drawdown.py:509-552 | any two accepted texts get one key exactly when the URLs they are read as agree up to case of scheme and host, userinfo, default port, fragment, trailing slashes, query order and blocklisted parameters |
| Urls.SpelledKeysCompare | src/lode/drawdown.py:509-552 | the same of the components of well-formed URLs and the texts they are spelled as |
| UrlReading.AcceptedIffSpelled | src/lode/drawdown.py:519-537 | a text whose userinfo holds no bracket is accepted if and only if some well-formed URL is spelled like it, and that URL has the scheme, host, port, path and query that the text is read as |
| UrlReading.BracketsInUserinfoAreChecked | src/lode/drawdown.py:519-524 | with both brackets in the userinfo only, the host must pass the test for bracketed hosts |
| UrlReading.PortOkIff | src/lode/drawdown.py:536-537 | a printed number is a port if and only if it is at most 65535 |
| Urls.PortKeepsKeyIffDefault | src/lode/drawdown.py:387-387 | naming a port keeps the key if and only if the port is empty, 80 under http or 443 under https, whatever the case of the scheme |
| UrlText.KeyIgnoresCaseOnly | src/lode/drawdown.py:519-524 | URLs that differ in scheme or host get one key if and only if the letters differ in case alone |
| UrlText.TrackingIff | src/lode/drawdown.py:492-506 | a blocklist entry that ends in a star covers the names that begin like it, any other entry itself, in any letter case |
| UrlText.CanonicalPathIs | src/lode/drawdown.py:539-543 | only slashes at the end go, and one stays where nothing else is left |
| UrlText.JunkIsIgnored | src/lode/drawdown.py:519-520 | white space around a URL and a tab or line break inside it change no key |
| UrlText.SchemeOkIff | src/lode/drawdown.py:519-520 | the characters of a scheme (section 3.1 of RFC 3986) |
| UrlText.FutureAddressIff | src/lode/drawdown.py:519-520 | the form of a bracketed address of a future version (section 3.2.2 of RFC 3986) |
| Enrichment.DerivedTables.WriteEnrichment | src/lode/enrich.py:286-378 | both tables are the clear-and-insert of the old ones, in the source's order of kinds |
| Enrichment.TombstoneDecides | src/lode/curation.py:29-63 | deleting an annotation or an edge decides about exactly the items of the row of that id: no other item, no other row; the row keeps its place, id, item and detail, an unknown id changes nothing, and deleting again changes nothing |
| Enrichment.WriteIsExact | src/lode/enrich.py:286-378 | after a write for v its AI rows are exactly the suggestions the user has not decided about, and every other row is there as often as before |
| Enrichment.RowsComeFromTheirLists | src/lode/enrich.py:337-366 | an AI row of kind tag comes from the tags, of kind entity from the entities, of kind summary from a summary that is not empty, as often as listed there, unless the user has decided about it; there are no others |
| Enrichment.EdgesComeFromTheirList | src/lode/enrich.py:368-379 | the k-th suggested edge is the k-th inferred edge of the owner, with its reason and confidence |
| Enrichment.LastWriteWins | src/lode/enrich.py:326-336 | writing again changes nothing, ids included, and forgets an earlier result |
| Enrichment.WritesCommute | src/lode/enrich.py:286-378 | writes for different versions commute, up to row ids and order |
| Enrichment.DecisionsSurvive | src/lode/curation.py:1-26 | over every run of enrichments and deletions a user row stays, and the AI rows for its item never grow in number |
| Enrichment.DeletedStaysDeleted | src/lode/curation.py:64-89 | a deleted suggestion is not brought back by any run |
| Batch.SubmitEnrichBatch | src/lode/enrich.py:622-748 | gated jobs done, the rest running under the handle with one audit row, or nothing sent where all are gated or the provider raises |
| Batch.SubmittingConserves | src/lode/enrich.py:678-731 | each given job is left done or running under the new handle by its gate, and no other job changes |
| Batch.BatchHoldsNoSecret | src/lode/enrich.py:678-707 | no withheld, dead or unknown target is in a batch, and no request holds a match of a pattern |
| Batch.BatchHoldsOnlyCleared | src/lode/enrich.py:423-478 | every request is the redacted body of a live version of an unflagged note, or of a real snapshot of an external neither flagged nor scoped |
| Batch.BatchAuditRowIs | src/lode/enrich.py:708-724 | the batch's audit row is that of the question path under the purpose enrich |
| Batch.CollectEnrichBatch | src/lode/enrich.py:751-923 | rows and derived tables are the fold of the results over the jobs in flight under the handle |
| Batch.MarkJobFailed | src/lode/enrich.py:926-965 | the row is the failure of its own current claim |
| Batch.RowChangesOnce | src/lode/enrich.py:829-921 | a row is as it was up to its result and from then on what that one result makes of it |
| Batch.CollectingConserves | src/lode/enrich.py:813-923 | every job in flight leaves running once, one attempt is added for an errored or unparsable result and none otherwise, and jobs not in flight under the handle are unchanged |
| Batch.CollectedAnnotationsAreExact | src/lode/enrich.py:829-899 | a version's annotations after collecting are exactly what its one result suggests and the user has not decided about |
| BatchRuns.CollectionIsCollect | src/lode/enrich.py:751-923 | what a collection makes of the rows is, row by row, a success or a read and a failure of the row's own claim: writes of the queue's protocol |
| BatchRuns.CollectCharges | src/lode/enrich.py:926-965 | a collection that finds a job in flight ends its claim, charging one attempt for a bad result and none for a good one; any other changes nothing |
| BatchRuns.ResultsAreUsedAgainIff | src/lode/worker.py:778-889 | over any run of writes, other batches and collections: a handle that has taken a job takes it again if and only if the job has been claimed again, that claim has not ended, and no new handle has been attached |
| BatchRuns.HarmlessAtAnyTimeIffNeverReclaimed | src/lode/worker.py:1040-1051 | old results can be taken at no moment of a run if and only if the job is never claimed again in it |
| BatchRuns.OneResultChargesTwice | src/lode/enrich.py:946-947 | a run in which one errored result charges two attempts and ends the claim made for the next batch |
| IndexLegs.IndexTables.PersistPassages | src/lode/embedding.py:409-433 | insert-or-replace of each passage in turn |
| IndexLegs.IndexTables.ReplacePassages | src/lode/lexical.py:136-155 | the version's FTS rows are replaced by one row per passage |
| IndexLegs.IndexTables.Index | src/lode/lexical.py:230-256 | passages and FTS rows of the body it is given, chunked as it is |
| IndexLegs.IndexTables.IndexSaved | src/lode/repository.py:270-275 | a save indexes the redacted body, as does the ingest of a snapshot |
| IndexLegs.IndexTables.Reindex | src/lode/reconcile.py:592-600 | the repair step and the reindex command index the stored bodies unredacted, one head after the other |
| IndexLegs.IndexTables.Embed | src/lode/embedding.py:436-500 | passages and vector rows of the redacted, chunked body, and how many: the k-th new row is for passage k and holds the k-th vector that the model returned for the passage texts in order; nothing changes for an unknown target, no vector row where the model returns the wrong number |
| IndexLegs.IndexTables.Evict | src/lode/lexical.py:258-265 | the version's passage and FTS rows go, all others stay |
| IndexLegs.PassageIdsAreUnique | src/lode/chunking.py:206-248 | target and number are determined by the passage id, for targets without a colon |
| IndexLegs.ContentIsSound | src/lode/embedding.py:436-500 | the passages of every version are numbered from 0 under ids of their target and number, one vector each, as the two results below need |
| IndexLegs.LegsConverge | src/lode/lexical.py:230-265 | after any saves, repairs and embeds of any versions, a version's passage, FTS and vector rows are what its own runs make them |
| IndexLegs.LegsAgreeIffHarmless | src/lode/embedding.py:409-500 | exactly when the legs agree after a run that has indexed and embedded a version: always without a repair; with one, by which leg ran last and how redaction changes the passages |
| IndexLegs.AgreementMeansOnePassageList | src/lode/embedding.py:409-500 | where they agree, FTS rows and vector rows carry exactly the ids of the passage rows, in order, each with its own passage's text and vector |
| IndexLegs.LegsAlwaysAgreeIffUnchanged | src/lode/reconcile.py:592-600 | the legs agree after every such run if and only if redaction leaves the passages as they are |
| IndexSecrets.UnchangedIffClean | src/lode/redact.py:69-72 | redaction leaves the passages of a body as they are if and only if no index pattern matches the body |
| IndexSecrets.LegsAlwaysAgreeIffClean | src/lode/reconcile.py:592-600 | the legs agree after every such run if and only if no index pattern matches the stored body |
| IndexSecrets.NoRawRunNoSecret | src/lode/repository.py:270-275 | as long as a version is never repaired, no passage row, FTS row or embedded text of it holds a match |
| IndexSecrets.FtsIsCleanIff | src/lode/lexical.py:230-265 | after any run, no searchable text of a version holds a match if and only if its last lexical run was a save (or there was none), or no passage of the stored body, chunked unredacted, holds one |
| IndexSecrets.FtsIsAlwaysCleanIff | src/lode/reconcile.py:592-600 | no searchable text holds a match after every run if and only if no passage of the stored body does |
| IndexSecrets.RowsAreCleanIff | src/lode/lexical.py:230-265 | after any run, no passage row of a version holds a match, in text or parent block, if and only if it was never repaired, or none is in the raw passages: all of them where a repair was last, those numbered beyond the redacted ones where it was not |
| IndexSecrets.RowsAreAlwaysCleanIff | src/lode/reconcile.py:592-600 | no passage row holds a match after every run if and only if no passage of the stored body does, in text or parent block |
| IndexSecrets.CleanBodyIsEnough | src/lode/redact.py:69-72 | a stored body that no pattern matches has no such passage |
| IndexExamples.SplitMatchIsNotSearchable | src/lode/chunking.py:186-203 | and need not be: a match that the passages cut apart is in the body and in no searchable text after every run |
| IndexSecrets.RepairMakesASecretSearchable | src/lode/reconcile.py:592-600 | such a run: with the body and the pattern both x, after one embed and one repair x is in the FTS rows and the legs disagree |
| IndexLegs.RechunkingIsCleanIffNoFewer | src/lode/embedding.py:409-433 | after a change of chunk settings the rows are exactly the new passages if and only if there are no fewer of them |
| IndexLegs.RechunkingABodyIsCleanIffNoFewer | src/lode/embedding.py:409-433 | the same of any stored body under any two settings of the chunker |
| IndexExamples.RechunkingLeavesARowBehind | src/lode/embedding.py:409-433 | such a body: two words, one passage each at a threshold of 1 and one passage at 2 |
| SharedEmbedder.FastEmbedEmbedder.LoadModel | src/lode/embedding.py:207-242 | loads only when nothing is loaded |
| SharedEmbedder.FastEmbedEmbedder.Revision | src/lode/embedding.py:244-287 | probes only when no probe is recorded, after loading |
| SharedEmbedder.FastEmbedEmbedder.Reset | src/lode/embedding.py:289-322 | re-arms only a failed probe |
| SharedEmbedder.AfterKeepsInv | src/lode/embedding.py:207-322 | every statement of every thread keeps the invariant, the loaded model and a successful revision |
| SharedEmbedder.OneModelOneRevision | src/lode/embedding.py:207-322 | under every interleaving: one construction at most, every load returns that object, no successful revision is overwritten, probes are at most one more than effective resets |
| SharedEmbedder.LaterCallersReportIt | src/lode/embedding.py:244-287 | once a probe has succeeded every caller that returns reports that revision |
| SharedEmbedder.SomeThreadCanStep | src/lode/embedding.py:207-322 | whenever a thread is in a call, it or the lock's holder can step |
| SharedEmbedder.StepsFinishCalls | src/lode/embedding.py:207-322 | each step brings its call strictly nearer its end |
| SharedEmbedder.AloneIsTheCall | src/lode/embedding.py:207-322 | the interleaved steps, taken by one thread alone, do what the method does |

## Left out

- The hash function: ids are the inputs they are hashed from, so distinct inputs have distinct ids; a field of 2^64 bytes or more is not framed.
- ClaimProtocol.QueuePromises: rests on two facts about runs, that successive claims of a row get different stamps, as the stale timeout makes them, and that a batch handle is attached only to a row still running; `ClaimProtocol.DoKeepsInvIffGood` shows that a step keeps the invariant exactly when it meets them, and `ClaimProtocol.RepeatedStampEndsAClaimTwice` and `ClaimProtocol.UnguardedAttachRevivesTheDead` what happens without them. A dead row may become done, because the success arm tests no state.
- SQLite beyond tables, one write lock taken by the first writing statement, atomic commit and rollback, and insert-or-ignore.
- A crash between the ingest commit and the FTS write, which the source accepts.
- What tools do during an ask: the snapshots they store, the queue jobs and the audit rows they write; the bodies they fetch are part of the provider's reply.
- CitedAnswer.Ask: scope rules are any predicate on an external's id and type rather than the two rule shapes, and what a provider raises is not told apart.
- NonInterference.HiddenTextHasNoInfluence: takes from the tools that they fetch nothing withheld, which `src/lode/tools.py:372-376` refuses.
- BatchRuns.ResultsAreUsedAgainIff: a collection is one step; a collector overtaken by another between reading its job map and applying a result is not modelled. Handles are new with each batch.
- Gate.DriftNeedsTheScorer: case folding and the class of word characters are any functions; the scorer's floating point is a real number.
- Redact.RedactionIsComplete: patterns that can match the empty string, anchors and look-around are outside the model; matches must hold no bracket and not occur in the marker's word.
- Nearest of all occurrences for a hint: overlapping occurrences are skipped when candidates are listed, so nearest is among the listed ones.
- QueueClock.TimestampsCompareInTimeOrder: years before 1000 print with fewer digits on some platforms and are not covered.
- Chunking.CharRangeRoundTrip: only ASCII digits are read as digits.
- Urls.CanonicalOfTyped: letters outside ASCII are not lower-cased and the NFKC check of such hosts is not modelled; IPv6 syntax is a predicate that ignores case.
- Urls.SameKeyIffSameSource: URLs without a host, whose canonical text the join key is not meant for, and texts that are refused, which get no key.
- Query.CanonicalQueryIsStable: text with lone surrogates, which Python refuses to encode.
- Enrichment.WriteIsExact: payloads are the strings their JSON spells; re-anchoring of stale AI rows is not part of this model.
- Batch.CollectingConserves: stated for unique live keys and live rows without a prompt version, which `ClaimProtocol.QueuePromises` proves of the queue; the job map is given, and two jobs for one version under one handle would leave one behind.
- IndexLegs.LegsConverge: completed runs only, with bodies, patterns, settings and model fixed through a run; the repair step and command are any sequence of raw runs, as which heads they pick is not part of this model; the periodic pruning of the vector store is housekeeping.
- DocsChunker.ChunkFile: the `doc_class` tag and the walk over the directory.
- The `ts` column of audit rows, log lines, progress heartbeats.
- Embedding and cross-encoder arithmetic, cosine similarity and the re-enrichment threshold.
- Connectors, authentication, LLM clients, the advisory worker lock, command line, terminal interface, settings validation, retrieval ranking, usage reports.
