# Verification model of the account gateway

This project models the parts of the gateway whose correctness cannot be read off one function, and
proves what the code promises about them. All of it is checked by Dafny 4.11:

    dafny verify dfyconfig.toml

## What is modelled

**Accounts.** The repository is a map from token to record with a global revision
(`AccountRepository`). The runtime table is a columnar store with derived indexes (`AccountTable`)
which is loaded from the repository and kept up to date by incremental scans (`AccountCatchUp`).
`AccountSync` says what a table shows (its *view*, by token, buckets read through the index) and
relates incremental catching up to loading afresh; `SyncRuns` lets transactions interleave with the
steps of a scan. `AccountWrites` says what a batch of upserts, patches or deletions leaves of a row,
`AccountColumns` what the columns of a slot say of its record, and `AccountEligibility` which records
can serve. `AccountSelector` and `AccountFeedback` are the functions over the columns,
`AccountDirectory` ties them together and keeps a ghost history of reservations, releases and
cooldowns, over which `LeaseRuns` proves the counting laws, `AccountReservations` says when a
reservation fails and which slot it gives, and `ChatRetry` is the account-swapping loop of a
completion.

**Tool calls.** `ToolXml` prints and parses tool-call blocks, `ToolSieve` is the streaming detector,
and `ToolRoundTrip` composes printer, arbitrary chunking, sieve and parser. `ToolText` holds the
literal scanners that stand for the patterns, and `TextLaws` says what they find.

**Clearance.** `ProxySingleFlight` is the refresh guard as a state machine: N coroutines, each step
one lock-protected block, wait or refresh, and an environment that reloads, invalidates and stores. `ProxyReloads`
says what reloads do to single flight, and `ProxyProgress` counts refreshes and steps.

**Streams.** `Citations` is the render-tag pattern as a scanner with the numbering and placing of
citations; `RenderTags` gives the form of a tag, and `CitationText` what a cleaned token says.
`StreamAdapter` is the adapter over it; `AdapterSources` and `AdapterRuns` tell its whole runs by the
frames alone. `AnthropicStream` is the content-block emitter on top. `Reasoning` is the aggregator of
reasoning lines, and `ReasoningRules` says when a note is printed.

**Media cache and framing.** `MediaCache` is the index, the disk and the eviction loop of one media
type; `GrpcWeb` the gRPC-Web frame encoder and frame loop.

`KeyedRows` and `Sequences` hold generic facts the other modules use.

Objects the source updates in place are classes with methods; each method is proved against a
specification, and the theorems are lemmas about the specification or facts that a class invariant
keeps. Fields that always change together travel in one value: the table's columns in `Columns`, the
per-mode column families in `PerMode`, the adapter's buffers in `Output`, the aggregator's
bookkeeping in `Ledger`.

Where the code does not meet a law in general, the exact condition is proved:

- Catching up equals reloading exactly when the changed rows fit in one page (`OnePageIsExact`),
  because the first page already moves the watermark to the global revision.
- An old load equals a new one exactly when no cooldown ran out in between (`EarlierLoadAgrees`).
- In a table that shows the repository, bucket-and-quota selection of a live slot equals the
  record-level test exactly when quota left implies a window of positive length
  (`TableFastPathExact`).
- A status change keeps the buckets exact except when it makes a slot active whose quota left and
  positive windows do not coincide (`StatusChangeExact`).
- The inflight column counts leases exactly while they stay within 65535 (`LeaseConservation`), and
  the random strategy's limit holds exactly for limits up to 65535 (`InflightCapExact`).
- The sieve is independent of chunking exactly when the first opening tag is in lower case up to its
  last letter (`ChunkingIndependence`): the search ignores case, holding back does not. At the end of
  a stream no text is lost exactly when nothing is held back (`EndOfStreamExact`).
- The block emitter's trace is grammatical exactly when the first thinking does not come after text
  (`GrammarExact`); the adapter guarantees that.
- Clearing the media cache leaves index and disk in agreement exactly when no deletion fails or the
  first one does (`LocalMediaCache.Clear`).
- After a reload that drops a key's live event, single flight still holds in every continuation
  exactly when at that moment no caller of the key is about to look or waits on another event
  (`DropExact`); `DroppedEventBreaksSingleFlight` is a run in which it fails.
- The key under which a reasoning line is remembered tells two agents' lines apart exactly when
  neither name continues the other behind a colon (`KeyIsExact`).

## Model

| member | source | states |
|---|---|---|
| AccountModels.NormalizeIsIdempotent | app/control/account/quota_defaults.py:130-159 | Normalising a quota set twice is normalising it once. |
| AccountModels.NormalizedSupport | app/control/account/quota_defaults.py:108-159 | After normalisation a mode has a window only if the pool supports it. |
| AccountModels.SlotWindowsAreSupported | app/dataplane/account/sync.py:18-66 | The columns of a slot have a positive window only for modes its pool supports. |
| AccountColumns.RecordIsShown | app/dataplane/account/sync.py:18-66 | Each column of a record's slot, told by the record alone: quota and total within their ranges and the pool's limits, window lengths, the second of every time, fail count, status, tags and buckets. |
| AccountColumns.LoadShowsRecords | app/dataplane/account/sync.py:70-92 | A loaded view shows exactly the live records, each in all its columns. |
| AccountTable.AccountRuntimeTable.AddToIndexes | app/dataplane/account/table.py:217-224 | An active slot joins exactly the buckets of its pool whose window is positive; no other bucket changes. |
| AccountTable.AccountRuntimeTable.RemoveFromIndexes | app/dataplane/account/table.py:226-231 | The slot leaves every bucket of its pool and no other bucket changes. |
| AccountTable.AccountRuntimeTable.RemoveFromTagIdx | app/dataplane/account/table.py:233-237 | The slot leaves the given tags only. |
| AccountTable.AccountRuntimeTable.AddToTagIdx | app/dataplane/account/table.py:239-243 | The slot joins the given tags only. |
| AccountTable.AccountRuntimeTable.AppendSlot | app/dataplane/account/table.py:247-312 | One row more with default runtime columns; all columns of one length, tokens and indices inverse, buckets exactly the active slots with positive windows. |
| AccountTable.AccountRuntimeTable.UpdateSlot | app/dataplane/account/table.py:318-381 | One row takes the repository fields and keeps health, inflight and cooling; all indexes stay exact. |
| AccountTable.AccountRuntimeTable.MarkDeleted | app/dataplane/account/sync.py:109-116 | Deletion changes the status only and takes the slot out of every bucket. |
| AccountTable.RebucketOneSlot | app/dataplane/account/table.py:217-231 | Taking a slot out of its old buckets and putting it where the rewritten row belongs keeps every bucket exact. |
| AccountRepository.WritesCompose | app/control/account/backends/local.py:97-104 | Batches under one revision compose into one write of the union of their tokens. |
| AccountRepository.UpsertsWrite | app/control/account/backends/local.py:159-210 | An upsert batch stamps exactly its tokens and changes no other row. |
| AccountRepository.PatchesWrite | app/control/account/backends/local.py:212-301 | A patch batch stamps exactly the known tokens among its patches. |
| AccountRepository.DeletesWrite | app/control/account/backends/local.py:394-415 | Deletion stamps and marks exactly the known tokens given. |
| AccountWrites.LastPatchWins | app/control/account/backends/local.py:212-301 | The last patch for a token decides its row, field by field, over what earlier patches left; other rows stay, and unknown tokens stay unknown. |
| AccountWrites.LastUpsertWins | app/control/account/backends/local.py:159-210 | The last valid upsert of a token decides its row: revived and active with the item's pool, tags and cooldown, quotas and counters kept, or fresh ones of the pool. |
| AccountWrites.NewAccountStarts | app/control/account/quota_defaults.py:46-66 | A new account, once loaded, has all calls of its pool's modes, in numbers, per day or two hours, and none in other modes. |
| AccountWrites.DeletionMarks | app/control/account/backends/local.py:394-415 | Exactly the live rows named are stamped as deleted, and nothing else about them changes. |
| AccountRepository.LocalAccountRepository.BumpRevision | app/control/account/backends/local.py:97-104 | The revision grows by one. |
| AccountRepository.LocalAccountRepository.UpsertAccounts | app/control/account/backends/local.py:360-375 | The rows are the upserted ones under one new revision; every row's revision stays within the counter. |
| AccountRepository.LocalAccountRepository.PatchAccounts | app/control/account/backends/local.py:377-392 | The rows are the patched ones under one new revision. |
| AccountRepository.LocalAccountRepository.DeleteAccounts | app/control/account/backends/local.py:394-415 | The named rows are marked deleted under one new revision. |
| AccountRepository.LocalAccountRepository.ReplacePool | app/control/account/backends/local.py:486-510 | The pool's live rows are marked deleted under one new revision and the new ones upserted under the next, in one transaction. |
| AccountRepository.ReplacePoolLive | app/control/account/backends/local.py:486-510 | Of the rows that were in the pool exactly the upserted ones are live afterwards; rows of other pools that are not upserted stay as they were. |
| AccountRepository.LocalAccountRepository.RuntimeSnapshot | app/control/account/backends/local.py:317-328 | The revision with exactly the live rows, each once. |
| AccountRepository.LocalAccountRepository.ScanChanges | app/control/account/backends/local.py:330-358 | The global revision with the oldest changed rows up to the limit, split by deletion; more is flagged exactly when the page is full. |
| AccountSync.OverlayIsReload | app/dataplane/account/sync.py:95-151 | Incremental sync refines reload: applying all rows changed since the watermark to a table in sync gives the freshly loaded view. |
| AccountSync.OnePageIsExact | app/dataplane/account/sync.py:145-149 | One page is enough for every table in sync and every page the scan may return if and only if the changed rows fit in the page. |
| AccountSync.SyncKeepsSupport | app/control/account/quota_defaults.py:108-159 | Every bucket of a loaded view, and of a supported view after a page, belongs to a pool that supports its mode. |
| AccountSync.EarlierLoadAgrees | app/control/account/state_machine.py:101-111 | Without repository changes, loads at two times agree if and only if no cooldown ran out in between. |
| AccountCatchUp.TableFastPath | app/control/account/state_machine.py:114-125 | In a table that shows the repository, a live slot is in its pool's real bucket with quota left if and only if its record with normalised quotas is selectable and has a positive window. |
| AccountCatchUp.TableFastPathExact | app/dataplane/account/selector.py:131-150 | For such a slot the two tests agree if and only if an active record's quota left implies a positive window. |
| AccountCatchUp.TableSupported | app/dataplane/account/table.py:217-224 | The buckets of a table respect the pools' modes if and only if those of its view do. |
| AccountSync.ViewBucketsAreReal | app/dataplane/account/table.py:217-243 | The buckets and tags in a slot's view are the real buckets and tags that contain the slot. |
| AccountCatchUp.CollectTags | app/dataplane/account/sync.py:128-132 | The reverse lookup finds exactly the slot's tags. |
| AccountCatchUp.DeleteToken | app/dataplane/account/sync.py:109-116 | The token leaves the view, and nothing is reported changed if it was unknown. |
| AccountCatchUp.StoreRecord | app/dataplane/account/sync.py:125-141 | The token shows all columns of the record as it is now; runtime columns of all slots are kept. |
| AccountCatchUp.Bootstrap | app/dataplane/account/sync.py:70-92 | A fresh table shows exactly the live records, column by column, at the repository's revision. |
| AccountCatchUp.ApplyPage | app/dataplane/account/sync.py:105-149 | One round applies one page and moves the watermark to the global revision. |
| AccountCatchUp.ApplyChanges | app/dataplane/account/sync.py:95-151 | Exactly one page is laid over the view; if the table was in sync and the changed rows fit, it shows exactly the live records, as if reloaded. False is returned only if no row changed. |
| AccountEligibility.SlotShowsColumns | app/dataplane/account/table.py:247-381 | In a table that shows the repository every live slot shows all columns of its token's record. |
| AccountEligibility.EligibleExact | app/dataplane/account/selector.py:122-210 | Such a slot can serve a mode if and only if its account counts as active and has calls left, or, for a basic account, its daily window is due by the clock's second. |
| SyncRuns.InvIsInductive | app/dataplane/account/sync.py:95-151 | Every step of writers, bootstrap and scan keeps the table in sync at its watermark. |
| SyncRuns.NoLostUpdate | app/dataplane/account/sync.py:106-151 | In every interleaving after the load, every row up to the table's revision is reflected in the table. |
| SyncRuns.CaughtUpIsReloaded | app/dataplane/account/sync.py:145-149 | Whatever interleaving led there, a table at the global revision is the reloaded table. |
| SyncRuns.QuietScanCatchesUp | app/control/account/backends/local.py:330-358 | From every reachable state one scan that no write interrupts yields the reloaded table. |
| AccountSelector.ScoresBeatSentinel | app/dataplane/account/selector.py:213-283 | Every score reachable from the column ranges is above the starting value of the search. |
| AccountSelector.ScoreTradeoffs | app/dataplane/account/selector.py:213-283 | The difference of two scores in points: 1 for a hundredth of health, 25 for a call left, -20 for a lease, -4 for a fail up to ten, and -1 for each second a use is short of 15. |
| AccountSelector.ScorePrefersBetter | app/dataplane/account/selector.py:213-283 | A slot that is worse on no count has a strictly higher score if it is better on one, and the same score otherwise. |
| AccountSelector.ResetOnce | app/dataplane/account/selector.py:184-210 | A window reset is idempotent, moves no slot between buckets and touches only quota and reset time. |
| AccountSelector.ResetRefills | app/dataplane/account/selector.py:184-210 | A due basic window gets its total back and runs a whole window from now; every other quota and reset time stays. |
| AccountSelector.MaybeResetWindows | app/dataplane/account/selector.py:184-210 | Exactly the due windows of the basic pool's bucket are refilled. |
| AccountSelector.Best | app/dataplane/account/selector.py:213-251 | The result has maximal score among the candidates, or every candidate's score is at most the sentinel. |
| AccountSelector.BestNoQuota | app/dataplane/account/selector.py:254-283 | The same for the score without quota. |
| AccountSelector.PoolUnion | app/dataplane/account/selector.py:330-336 | The union of the pool's buckets, which is its active slots with some positive window. |
| AccountSelector.QuotaSelect | app/dataplane/account/selector.py:122-156 | An eligible slot (in the bucket, not excluded, quota left after resets), preferred if any eligible one is, of maximal score. |
| AccountSelector.QuotaSelectAny | app/dataplane/account/selector.py:159-181 | The same over all active slots of the pool, without quotas. |
| AccountSelector.RandomSelect | app/dataplane/account/selector.py:291-322 | Some slot that is not excluded, not cooling and below the inflight limit, preferred if possible; none only if there is none. |
| AccountSelector.NoneMeansNoneEligible | app/dataplane/account/selector.py:122-156 | With columns in range, nothing is selected if and only if nothing is eligible. |
| AccountFeedback.StatusChangeExact | app/dataplane/account/feedback.py:95-115 | Re-indexing on a status change keeps the buckets exact if and only if the slot leaves ACTIVE, stays in it, or has quota left exactly where its windows are positive. |
| AccountFeedback.ApplyStatusChange | app/dataplane/account/feedback.py:95-115 | One status changes and the slot's buckets are re-indexed by quota; leaving ACTIVE keeps the table valid. |
| AccountFeedback.ApplyQuotaUpdate | app/dataplane/account/feedback.py:118-139 | Quota and reset time of one mode change, clamped; buckets stay exact. |
| AccountFeedback.ApplyKind | app/dataplane/account/feedback.py:32-92 | One row changes as the kind of feedback demands under the strategy, and no other. |
| AccountFeedback.FeedbackIsReported | app/dataplane/account/feedback.py:32-173 | What one response leaves of a slot, in numbers: health, fail count and date, quota and reset time of the mode, cooldown and status; all else stays. |
| AccountFeedback.FeedbackBounds | app/dataplane/account/feedback.py:164-173 | Feedback keeps health, quota and counters within the ranges that selection relies on. |
| AccountFeedback.IncrementInflight | app/dataplane/account/feedback.py:142-143 | One row's inflight counter grows by one, saturating. |
| AccountFeedback.DecrementInflight | app/dataplane/account/feedback.py:146-147 | One row's inflight counter shrinks by one, not below zero. |
| LeaseRuns.LeaseConservation | app/dataplane/account/feedback.py:142-147 | Over any run in which a lease comes back at most once, counter and outstanding leases agree throughout if and only if these never exceed 65535. |
| LeaseRuns.InflightCapExact | app/dataplane/account/selector.py:291-322 | No filtered run exceeds the inflight limit, for every run, if and only if the limit is within the counter's range. |
| LeaseRuns.CapHolds | app/dataplane/account/selector.py:303-313 | In every run of filtered reservations the outstanding leases of a slot stay within the limit and the counter is exact. |
| LeaseRuns.CoolingNeverFalls | app/dataplane/account/feedback.py:61-72 | No event lowers a slot's cooling time. |
| LeaseRuns.NeverReservedWhileCooling | app/dataplane/account/feedback.py:61-72 | After cooling until a time, a slot is not reserved before that time, whatever comes between. |
| AccountDirectory.AccountDirectory.Start | app/dataplane/account/__init__.py:48-53 | The table is the reloaded one with no leases and no cooling. |
| AccountDirectory.AccountDirectory.SyncIfChanged | app/dataplane/account/__init__.py:55-75 | Exactly one page is laid over the view, runtime counters are kept, the view is the reloaded one when the changes fit, and false is returned only if no row changed. |
| AccountDirectory.BucketsSupported | app/control/account/quota_defaults.py:108-159 | In every reachable directory, through sync, feedback, expiry and window resets, a bucket holds slots only of pools that support its mode. |
| AccountDirectory.AccountDirectory.Reserve | app/dataplane/account/__init__.py:81-152 | The first pool that selection serves provides the slot, whose lease is counted; excluded tokens are never returned. |
| AccountDirectory.AccountDirectory.ReserveAny | app/dataplane/account/__init__.py:154-219 | The same without a mode. |
| AccountDirectory.AccountDirectory.Release | app/dataplane/account/__init__.py:221-227 | One lease of the slot comes back. |
| AccountDirectory.AccountDirectory.Feedback | app/dataplane/account/__init__.py:233-289 | Feedback reaches exactly the token's slot and leaves there, in numbers, what the response demands; a rate limit is recorded as a cooldown. |
| AccountDirectory.QuotaReserveExact | app/dataplane/account/__init__.py:106-152 | Quota reservation fails if and only if no pool has an eligible slot; otherwise it gives an eligible slot of the first pool that has one, a preferred one if there is any, and no other such slot is better on some count and worse on none. |
| AccountReservations.RandomReserveExact | app/dataplane/account/selector.py:291-322 | Random reservation fails if and only if every slot not excluded is inactive, cooling or at the limit; otherwise it gives a free slot of the first pool that has one, a preferred one if there is any. |
| AccountReservations.AnyReserveExact | app/dataplane/account/selector.py:159-181 | Reservation without a mode fails if and only if every serving slot is excluded; otherwise it gives one of the first pool that has one, which no other is better than on some count and worse on none. |
| AccountReservations.PreferredByTag | app/dataplane/account/__init__.py:115-122 | Preferred are exactly the slots whose rows carry one of the tags. |
| AccountReservations.ExcludedByToken | app/dataplane/account/__init__.py:106-113 | Excluded are exactly the slots of the tokens. |
| AccountReservations.ReserveTouches | app/dataplane/account/__init__.py:126-152 | The reserved slot has one more lease and was used now; apart from quotas and reset times nothing else changes. |
| AccountDirectory.InflightIsLeasesOut | app/dataplane/account/__init__.py:81-227 | In every reachable directory the inflight column is the number of leases out, while that stays in range. |
| AccountDirectory.RandomCap | app/dataplane/account/selector.py:291-322 | Under the random strategy no slot of a reachable directory has more leases out than the limit. |
| ChatRetry.ReserveAccount | app/products/_account_selection.py:45-85 | The modes are tried in order; all before the one returned found nothing, and none is returned only if every mode found nothing. |
| ChatRetry.Attempt | app/products/openai/chat.py:725-812 | One attempt reserves a slot whose token is not excluded in one of the modes in turn, gives it back and reports the outcome on it, leaving there in numbers what the outcome demands; or it finds nothing and changes no lease. |
| ChatRetry.LeasesReturned | app/products/openai/chat.py:725-812 | The events of a whole request leave the outstanding leases of every slot as they were. |
| ChatRetry.LeaseReturned | app/products/openai/chat.py:725-812 | A reservation, its release and an optional cooldown leave the outstanding leases of every slot as they were. |
| ChatRetry.Completions | app/products/openai/chat.py:725-812 | The history grows by exactly one group of events per token tried, on that token's slot, so every lease is returned; tokens are pairwise different, at most retries plus one; every outcome but the last is a retryable upstream error; if the last is one too, or none was tried, retries are used up or no candidate mode had a slot left. |
| ToolText.FindIsFirst | app/products/openai/_tool_sieve.py:37-39 | The search finds the first match, and none only if there is none. |
| ToolText.CutAtTag | app/dataplane/reverse/protocol/tool_parser.py:108-111 | In printed pieces that avoid a tag the search stops at its first printed occurrence. |
| TextLaws.CutIsFirst | app/dataplane/reverse/protocol/tool_parser.py:108-111 | The cut is at the first tag with optional white space and a closing bracket, and none is found only if there is none. |
| TextLaws.TagIgnoresCase | app/dataplane/reverse/protocol/tool_parser.py:108-111 | A tag is found whatever the case of its letters, and nothing else is. |
| TextLaws.StripExact | app/dataplane/reverse/protocol/tool_parser.py:124-125 | Stripping takes off all white space at both ends and nothing else. |
| ToolXml.ToolCallsToXml | app/dataplane/reverse/protocol/tool_prompt.py:90-108 | The loop prints the block of all calls. |
| ToolXml.ParseXmlToolCalls | app/dataplane/reverse/protocol/tool_parser.py:114-131 | The loops find the calls of the first root block. |
| ToolXml.ParsePrinted | app/dataplane/reverse/protocol/tool_parser.py:108-131 | Parsing the printed calls gives the calls back, in order. |
| ToolXml.CallReads | app/dataplane/reverse/protocol/tool_parser.py:119-130 | A call element with any name and parameters text gives one trimmed call, whose arguments are the string, the printed value, the empty object or the repaired value, or none if the text means nothing. |
| ToolXml.CallWithoutParameters | app/dataplane/reverse/protocol/tool_parser.py:119-130 | A call element without parameters is one with an empty object written out. |
| ToolXml.ParseReports | app/dataplane/reverse/protocol/tool_parser.py:55-87 | Tool syntax is reported if and only if the text is not blank and has some; the calls are those of the root element or else of the other parsers, exactly the known ones, in order. |
| ToolXml.ParseOfPrint | app/dataplane/reverse/protocol/tool_parser.py:55-87 | Parsing a printed block gives exactly its calls. |
| ToolXml.PrintedBlockEnds | app/dataplane/reverse/protocol/tool_prompt.py:90-108 | The first closing root tag of a printed block is its end. |
| ToolSieve.SplitAtBoundary | app/products/openai/_tool_sieve.py:143-150 | Splits off the longest end of the text that is a proper prefix of the tag. |
| ToolSieve.HeldLengthIsLongest | app/products/openai/_tool_sieve.py:143-150 | What is held back is the longest such end. |
| ToolSieve.TagStartsInHeld | app/products/openai/_tool_sieve.py:98-118 | A tag completed by a later chunk starts in the held-back text. |
| ToolSieve.FeedExtends | app/products/openai/_tool_sieve.py:65-136 | One more chunk leads from the state of a text to the state of the longer text. |
| ToolSieve.BlockIsFinal | app/products/openai/_tool_sieve.py:120-136 | More text does not change a completed block. |
| ToolSieve.RunIsScan | app/products/openai/_tool_sieve.py:65-136 | Any chunking of a text whose first tag has an exact head behaves as the text in one piece. |
| ToolSieve.ChunkingIndependence | app/products/openai/_tool_sieve.py:65-150 | All chunkings agree if and only if the first opening tag is in lower case up to its last letter. |
| ToolSieve.ScanKeepsText | app/products/openai/_tool_sieve.py:98-118 | Without an opening tag, emitted text and buffer make up the text, and the buffer is its longest end that is a proper prefix of the tag. |
| ToolSieve.ScanCatchesBlock | app/products/openai/_tool_sieve.py:98-136 | With the first tag at p, the text before p is emitted and the block ends with the first closing tag. |
| ToolSieve.EndOfStreamExact | app/products/openai/_tool_sieve.py:82-92 | A stream without tags has emitted all its text if and only if nothing is held back at its end. |
| ToolSieve.Sieve.FeedScanning | app/products/openai/_tool_sieve.py:98-118 | State and text follow the scanning specification; the calls are what the parser reports of the block. |
| ToolSieve.Sieve.FeedCapturing | app/products/openai/_tool_sieve.py:120-136 | State and text follow the capturing specification; the calls are what the parser reports of the block. |
| ToolSieve.Sieve.FeedChunk | app/products/openai/_tool_sieve.py:65-80 | A feed follows the one-chunk specification; the calls are what the parser reports of a completed block, and none without one. |
| ToolSieve.Sieve.Flush | app/products/openai/_tool_sieve.py:82-92 | The buffer is parsed once and emptied; the calls are what the parser reports of it. |
| ToolRoundTrip.FeedAll | app/products/openai/_tool_sieve.py:65-80 | Feeding until calls come back is the specified run; the calls are what the parser reports of its block. |
| ToolRoundTrip.Stream | app/products/openai/_tool_sieve.py:65-92 | Feeding until calls come back, and then flushing. In any chunking, text without the tag and printed calls of known names behind it come out as exactly this text and these calls; behind such text a block that never ends gives the known calls of the other parsers; in general the stream delivers text and calls as its whole text demands. |
| ToolRoundTrip.PrintedCallsSurvive | app/dataplane/reverse/protocol/tool_prompt.py:90-108 | Tag-free text followed by printed calls, in any chunking: the sieve emits exactly the text and the parser gives exactly the calls, in order. |
| ToolRoundTrip.UnclosedFallsBack | app/products/openai/_tool_sieve.py:82-91 | A block that never ends is parsed by flush: the text before it was passed on, and the calls are the known ones of the other parsers. |
| ProxySingleFlight.RunKeepsInv | app/control/proxy/__init__.py:259-292 | In every reachable state unset events are owned, owners are distinct and the dictionary names live flights. |
| ProxySingleFlight.NoStuckWaiter | app/control/proxy/__init__.py:116-136 | In every reachable state, reloads included, an unset event that is waited for has an owner in its refresh or its finally clause. |
| ProxySingleFlight.SingleFlight | app/control/proxy/__init__.py:259-292 | As long as no reload drops the key, at most one coroutine is refreshing it. |
| ProxySingleFlight.DroppedEventBreaksSingleFlight | app/control/proxy/__init__.py:131-135 | A run in which a reload drops a live event and two coroutines refresh one key. |
| ProxyReloads.DropExact | app/control/proxy/__init__.py:131-135 | After a reload that drops the key's live event, at most one coroutine at a time refreshes the key in every continuation if and only if no caller of the key was about to look or waited on another event. |
| ProxyReloads.FirstDropExact | app/control/proxy/__init__.py:116-136 | The same in every state that a run reaches before its first such reload. |
| ProxyProgress.AtMostOneRefreshEach | app/control/proxy/__init__.py:259-292 | In every run a key is refreshed at most as often as it has callers. |
| ProxyProgress.ExactlyOneRefresh | app/control/proxy/__init__.py:259-292 | If refreshes succeed and nothing is invalidated, the callers of a key cause exactly one refresh. |
| ProxyProgress.ReturnedForAReason | app/control/proxy/__init__.py:259-292 | In every run a caller that has returned saw a valid bundle of its key or ran a refresh of its own. |
| ProxyProgress.ReturnedWithBundle | app/control/proxy/__init__.py:259-292 | If refreshes succeed and nothing is invalidated, every caller that has returned has a valid bundle. |
| ProxyProgress.NoDeadlock | app/control/proxy/__init__.py:259-292 | Until all callers have returned, one of them can step. |
| ProxyProgress.RunsAreShort | app/control/proxy/__init__.py:259-292 | N callers take at most N(8N+7) steps altogether, whatever the environment does. |
| Citations.FirstAppearance | app/dataplane/reverse/protocol/xai_chat.py:589-595 | An address is listed at the place that counts the different addresses before its first citation. |
| Citations.NumberedOneMore | app/dataplane/reverse/protocol/xai_chat.py:589-599 | The numbering follows the history of citations; a citation repeats the last number if and only if it repeats the last address. |
| Citations.EmbedsGreedily | app/dataplane/reverse/protocol/xai_chat.py:549-562 | Taking the first occurrence of each printed citation leaves room for the rest. |
| Citations.SubstituteFollows | app/dataplane/reverse/protocol/xai_chat.py:566-615 | Replacing the tags of a token prints one labelled citation for each cited address that is not an immediate repeat. |
| Citations.CleanedFollows | app/dataplane/reverse/protocol/xai_chat.py:540-547 | The same after stripping leading newlines; what the text says is `CitationText.CleanedIsSent`. |
| Citations.Locate | app/dataplane/reverse/protocol/xai_chat.py:549-564 | Marks found are exact, ordered and disjoint; every printed citation is found. |
| RenderTags.TagHereExact | app/dataplane/reverse/protocol/xai_chat.py:232-236 | The scanner finds a tag if and only if the text starts with the form of a render tag, and takes exactly the form, up to the first closing tag. |
| CitationText.SubstituteShows | app/dataplane/reverse/protocol/xai_chat.py:566-615 | However a token is read as plain stretches and render tags, the text is the stretches in order with each tag replaced by its numbered citation, its image, or nothing. |
| CitationText.CleanedIsSent | app/dataplane/reverse/protocol/xai_chat.py:540-547 | The text sent is exactly what the token shows, up to leading newlines when a double bracket occurs; every token can be read. |
| CitationText.PlainIsSent | app/dataplane/reverse/protocol/xai_chat.py:541-542 | For a token without the opening of a tag, exactly the token itself is sent. |
| CitationText.NumberReads | app/dataplane/reverse/protocol/xai_chat.py:598-598 | A printed number is the decimal form without leading zeros. |
| CitationText.CleanedTitles | app/dataplane/reverse/protocol/xai_chat.py:599-613 | Every citation carries its card's title, or that of the first search result with its address, or the address. |
| StreamAdapter.ExactBoth | app/dataplane/reverse/protocol/xai_chat.py:474-488 | One more cleaned token keeps all annotations exact in the joined text. |
| StreamAdapter.LabelIsFirstAppearance | app/dataplane/reverse/protocol/xai_chat.py:589-604 | An annotation marks the printed form of its address with the address's first-appearance number. |
| StreamAdapter.ThinkingComesFirst | app/dataplane/reverse/protocol/xai_chat.py:397-488 | In a trace of the adapter no thinking follows text. |
| StreamAdapter.AnnotationsAreBacked | app/dataplane/reverse/protocol/xai_chat.py:474-488 | Every annotation event marks its citation in the text sent before it. |
| StreamAdapter.KeyIsExact | app/dataplane/reverse/protocol/xai_chat.py:636-644 | For two agents, lines share a key only if agent and text are the same, if and only if neither name continues the other behind a colon. |
| StreamAdapter.KeysCanCollide | app/dataplane/reverse/protocol/xai_chat.py:636-644 | With a colon in a name one agent's line has another's key. |
| StreamAdapter.FedKeeps | app/dataplane/reverse/protocol/xai_chat.py:342-501 | One frame keeps thinking before text, annotations exact and on text already sent, and the buffers equal to what was sent. |
| StreamAdapter.RunKeeps | app/dataplane/reverse/protocol/xai_chat.py:342-501 | So does every run of frames, for the addresses that the frames cite. |
| StreamAdapter.StreamAdapter.HandleCard | app/dataplane/reverse/protocol/xai_chat.py:507-533 | The card is cached; progress and finished unmoderated images are reported. |
| StreamAdapter.StreamAdapter.AppendReasoning | app/dataplane/reverse/protocol/xai_chat.py:617-653 | A line is sent and kept unless empty or said before by the same agent. |
| StreamAdapter.StreamAdapter.ThinkingFrame | app/dataplane/reverse/protocol/xai_chat.py:446-471 | A change of agent is announced, a bullet taken off and the line appended. |
| StreamAdapter.StreamAdapter.LateThinking | app/dataplane/reverse/protocol/xai_chat.py:433-439 | Thinking after the text is kept and not sent. |
| StreamAdapter.StreamAdapter.FinalText | app/dataplane/reverse/protocol/xai_chat.py:474-488 | The text grows by exactly what the token shows, and the events are that text and its located citations. |
| StreamAdapter.StreamAdapter.CollectSources | app/dataplane/reverse/protocol/xai_chat.py:364-389 | Search results are collected once per address, in order. |
| StreamAdapter.StreamAdapter.FeedMessage | app/dataplane/reverse/protocol/xai_chat.py:391-501 | State and events after a frame's message are those of its kind; the text grows, and is sent, by exactly what an answer token shows, and otherwise not at all. |
| StreamAdapter.StreamAdapter.Feed | app/dataplane/reverse/protocol/xai_chat.py:342-501 | A frame does what the function of one frame says, keeps citations exact and thinking before text, and adds to the text, and sends, exactly what an answer token shows. |
| AdapterSources.AddCollects | app/dataplane/reverse/protocol/xai_chat.py:364-389 | The collected sources are the first search result for each address, in the order found. |
| AdapterRuns.RunAdds | app/dataplane/reverse/protocol/xai_chat.py:342-501 | Over every run, told by the frames alone, a frame adds its image's report and then: the announcement of a new agent and the line of thinking unless it was said before; or the text its token shows with titled annotations; or the end; and nothing else. |
| AdapterRuns.RunRemembers | app/dataplane/reverse/protocol/xai_chat.py:342-501 | What the adapter remembers of a run is what its frames say: whether the answer began, the lines said, the agent that spoke last, the cards and the sources. |
| AnthropicStream.GrammarExact | app/products/anthropic/messages.py:383-584 | For any events, the trace is start, ping, at most one thinking block, at most one text block, delta and stop if and only if the first thinking does not come after text, and then it shows exactly the thinking, text and annotations. |
| AnthropicStream.TwoBlocksAtZero | app/products/anthropic/messages.py:387-394 | A trace that opens both blocks at index 0 is no message. |
| AnthropicStream.EmitShows | app/products/anthropic/messages.py:385-467 | One event takes the emitter from the beginning of a message to the beginning of a longer one, or into disorder. |
| AnthropicStream.PlacedIsOrdered | app/dataplane/reverse/protocol/xai_chat.py:397-488 | What the adapter sends is never in disorder. |
| AnthropicStream.RunStream | app/products/anthropic/messages.py:339-584 | For any upstream lines the trace is a message of the grammar that shows all thinking and text which the adapter, run over the frames up to the end mark, sends before the first soft stop, then resolved images and references. |
| AnthropicStream.ReadKeeps | app/products/anthropic/messages.py:372-471 | What is shown is always the beginning of what the adapter sends. |
| AnthropicStream.ReadIsRun | app/products/anthropic/messages.py:363-381 | Reading lines is running the adapter over the frames of the data lines before the end mark, up to the frame with the first soft stop. |
| AnthropicStream.ThinksAreAll | app/products/anthropic/messages.py:385-404 | Of what the adapter sends all thinking is shown, or none if thinking is off. |
| AnthropicStream.TextsAreAll | app/products/anthropic/messages.py:406-460 | All text is shown, and no part of it is empty. |
| AnthropicStream.ExtrasJoined | app/products/anthropic/messages.py:527-551 | The extras are a line for each image that resolves, in order, and then the references; none is empty. |
| Reasoning.EmitAgrees | app/dataplane/reverse/protocol/xai_chat_reasoning.py:351-399 | The aggregator's sets and counters decide about a note as the printed trace itself would, and stay exact. |
| Reasoning.EmitAllAgrees | app/dataplane/reverse/protocol/xai_chat_reasoning.py:351-399 | The same over all notes. |
| Reasoning.SectionOrder | app/dataplane/reverse/protocol/xai_chat_reasoning.py:355-377 | No scope after evidence or finding, no evidence after finding, no key twice. |
| Reasoning.TitleOnceAndFirst | app/dataplane/reverse/protocol/xai_chat_reasoning.py:393-399 | Each section is titled once, directly before its first line. |
| Reasoning.TrackCaps | app/dataplane/reverse/protocol/xai_chat_reasoning.py:379-384 | Per track at most one scope, one evidence, two understanding and two finding lines, lines about started agents apart. |
| Reasoning.LevelsRise | app/dataplane/reverse/protocol/xai_chat_reasoning.py:385-390 | Within a section and track the level never falls. |
| Reasoning.LanguageIsFinal | app/dataplane/reverse/protocol/xai_chat_reasoning.py:324-341 | The language once chosen never changes. |
| Reasoning.WholeOutput | app/dataplane/reverse/protocol/xai_chat_reasoning.py:246-251 | When nothing waits, the whole output is that of all notes emitted directly, in order of arrival, in the one language. |
| ReasoningRules.NoteIsPrinted | app/dataplane/reverse/protocol/xai_chat_reasoning.py:351-399 | A note adds its line, behind its section's title if that is new, if and only if the lines printed so far allow it: nonempty text, open section, unused key, room for its track and no stronger line there. |
| ReasoningRules.VoteExact | app/dataplane/reverse/protocol/xai_chat_reasoning.py:401-412 | A text votes Chinese with four Chinese characters, or with three and at most five letters; otherwise English with four letters. |
| ReasoningRules.TitlesDiffer | app/dataplane/reverse/protocol/xai_chat_reasoning.py:414-416 | No two sections, and no two languages, share a title. |
| Reasoning.ReasoningAggregator.ObserveLanguage | app/dataplane/reverse/protocol/xai_chat_reasoning.py:401-412 | A text votes; the first Chinese one decides. |
| Reasoning.ReasoningAggregator.DispatchNote | app/dataplane/reverse/protocol/xai_chat_reasoning.py:324-341 | A note waits until the language is chosen, and what waited goes first. |
| Reasoning.ReasoningAggregator.FlushPending | app/dataplane/reverse/protocol/xai_chat_reasoning.py:343-349 | All waiting notes are emitted in order. |
| Reasoning.ReasoningAggregator.Finish | app/dataplane/reverse/protocol/xai_chat_reasoning.py:246-251 | At the end the whole output is that of direct emission. |
| MediaCache.Listing | app/platform/storage/media_cache.py:382-390 | All rows, each once, by age and then name. |
| MediaCache.SumSizes | app/platform/storage/media_cache.py:340-345 | The sum of the sizes of all rows. |
| MediaCache.SweptTrims | app/platform/storage/media_cache.py:392-420 | The loop removes, in order, exactly the shortest prefix of the rows that may go which reaches the target, or all of them, and its usage is the sum of what remains. |
| MediaCache.TrimKeeps | app/platform/storage/media_cache.py:376-399 | A protected or undeletable name keeps row and file. |
| MediaCache.TrimIsThorough | app/platform/storage/media_cache.py:392-420 | If the target is missed, only names that must be kept are left. |
| MediaCache.TrimIsInOrder | app/platform/storage/media_cache.py:382-390 | What goes is older than what could have gone and stays, or as old and of a smaller name. |
| MediaCache.NewestSpared | app/platform/storage/media_cache.py:347-379 | The newest row is never removed. |
| MediaCache.LimitHolds | app/platform/storage/media_cache.py:360-420 | Afterwards the cache is within its limit, or only spared, undeletable and newest rows are left. |
| MediaCache.LowWatermark | app/platform/storage/media_cache.py:360-420 | Beyond the limit the cache is trimmed to three fifths of it, unless only names that must be kept are left, and not a file further. |
| MediaCache.LocalMediaCache.EnforceLimit | app/platform/storage/media_cache.py:360-420 | Nothing up to the limit, a trim beyond it. |
| MediaCache.LocalMediaCache.Save | app/platform/storage/media_cache.py:117-138 | The file is there afterwards; an existing one is kept, with the age of its row or of the file, and a new one is dated now. With a limit, index and disk still agree and the limit is enforced without losing the file. |
| MediaCache.LocalMediaCache.Delete | app/platform/storage/media_cache.py:91-100 | File and row go together, or neither when deletion fails. |
| MediaCache.LocalMediaCache.Clear | app/platform/storage/media_cache.py:102-111 | Everything goes; after a failure index and disk agree if and only if the first file was the one that failed. |
| MediaCache.LocalMediaCache.Reconcile | app/platform/storage/media_cache.py:53-89 | Whatever the index was, index and disk agree afterwards, each row dated as its file. |
| GrpcWeb.LengthRoundTrip | app/platform/net/grpc.py:54-57 | The packed length is read back. |
| GrpcWeb.ParseFrames | app/platform/net/grpc.py:109-130 | The loop computes the specified parse. |
| GrpcWeb.ParseOfEncoded | app/platform/net/grpc.py:54-130 | Encoded messages with a trailers frame and an incomplete rest give the messages in order and the trailers. |
| GrpcWeb.PrefixParses | app/platform/net/grpc.py:109-130 | A prefix of the input yields a prefix of the messages, and a compressed frame in it is found in the whole. |
| GrpcWeb.FramesAreNotBase64 | app/platform/net/grpc.py:63-75 | A body that starts with a data or trailers frame is never decoded as base64. |
| GrpcWeb.DecodedExact | app/platform/net/grpc.py:63-75 | A body is decoded if and only if it decodes and its first 2048 bytes are base64 characters or line breaks. |

## Left out

- The Redis and SQL account backends: the first is not atomic, the second repeats the local one.
- Mutation results and counts, listing and paging of accounts, and the validation and normalisation of tokens and tags before they reach the rows.
- Record fields that the runtime table never sees, such as usage counters, failure texts and the `ext` map; the scheduled refresh of quotas.
- `AccountRuntimeTable.size`: it is not raised when a deleted token comes back (app/dataplane/account/sync.py:133-139), so it is tracked but in no invariant.
- Overflow errors of the fixed-width columns other than the saturating counters and the clamped quotas; times are natural numbers, and only the score bound assumes their range.
- Health and scores are real numbers; rounding of floats is not modelled. The low watermark is the floor of three fifths of the limit.
- AccountFeedback.ApplyStatusChange: validity is promised only for statuses other than ACTIVE, which no caller passes; `StatusChangeExact` says exactly when it would hold for ACTIVE.
- AccountDirectory.AccountDirectory.Feedback: an unauthorised call for a token deleted in the meantime turns its slot from DELETED to EXPIRED, as in the code; neither state is ever selected.
- AccountDirectory.AccountDirectory.SyncIfChanged: when more rows changed than fit in a page, which page is laid over the view is fixed only up to rows of equal revision.
- AccountDirectory.RandomCap: assumes the limit does not change while leases are out.
- ChatRetry.Completions: the loop runs without other callers in between; the on-demand refresh before a second round of reservations is not modelled.
- The streaming variant of the retry loop, which releases and excludes in the same way.
- ToolRoundTrip.PrintedCallsSurvive: names and arguments contain no `<`, names are trimmed and known, and arguments are texts that the JSON library prints as they are. JSON itself, the fallback parsers for JSON and other XML dialects and random call identifiers are parameters.
- The tag patterns ignore ASCII case only; the few other letters that fold to ASCII are not modelled. Text after the closing tag in the same chunk is dropped, as in the code.
- ProxySingleFlight: cancellation of a waiting coroutine, the contents of bundles and the choice of a proxy.
- StreamAdapter.StreamAdapter.Feed: frames come decoded, frames that raise an in-band error end the run, and the one-line text of a tool card is an input. The summary thinking mode is not modelled; its last flush can send thinking after text.
- Message tags and step numbers that events merely carry along; the printed progress of an image is an input.
- AnthropicStream.RunStream: one successful attempt without tools. The tool path opens a block at the index of a text block that is still open. Retries after the start of a message and token estimates are not modelled. Extras of a message without text are dropped from the trace, as in the code.
- Reasoning: how texts become notes, keyword tables and clause scores are inputs, and so is the text of localised lines, which is fixed before a note waits.
- MediaCache: one media type at a time; names are valid already, locks, temporary files and file-system races are not modelled, and each call is given the set of files that cannot be deleted.
- GrpcWeb: the text content type, trailers sent as HTTP headers, the status code mapping and the parsing of a trailers payload, which is a parameter.
