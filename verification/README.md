# Verified model of the gateway's stateful protocols

ChannelGate is a chat gateway with a web admin surface and a VPN side container that reads a customer
database. Most of its difficulty sits in a few small protocols whose guarantees only show over whole runs:
pages of a table that changes while it is read, a browser poller interleaved with navigation, several
processes claiming the same schedule, settings pages saved against each other, a status file read by a
health check while its writer may die. This project models those protocols in Dafny, in the form the code
has (objects whose methods change fields, loops, or plain functions), and proves what they promise.
`dafny verify dfyconfig.toml` checks everything.

| file | what it models |
|---|---|
| `Basics.dfy` | options and results, JavaScript's `trim`, decimal notation |
| `Json.dfy` | JSON values, their compact ASCII encoding and its length |
| `JsonReader.dfy` | a parser for that encoding, and why it inverts the printer |
| `QueryRequest.dfy` | the structured query request and its validation |
| `QuerySql.dfy` | table metadata, an abstract SQL engine, the statement that a request compiles to |
| `QueryCells.dfy` | cells as JSON, and what a reader of the JSON gets back |
| `QueryMeaning.dfy` | binding parameters to placeholders; what a compiled request means |
| `QuerySelect.dfy` | filling one page from the fetched rows |
| `QueryPaging.dfy` | following `nextCursor` over changing snapshots |
| `QueryProgress.dfy` | every snapshot has a page; reading a fixed table ends |
| `QueryRequestSize.dfy` | when the request for the next page still fits |
| `QueryBudget.dfy` | the byte limit of a page and of the printed response |
| `QueryDelivery.dfy` | from the table through the printed response to its reader |
| `QueryWitness.dfy` | a real table whose last page is lost |
| `HealthPoller.dfy` | the system-health poller as an event machine, and as the object the source writes |
| `HealthLedger.dfy` | what the events so far call for, and that the machine does it |
| `RecordTable.dfy` | rows whose columns mirror a JSON record |
| `Schedules.dfy` | schedule claims, edits, deletes, and pending acknowledgments |
| `Settings.dfy` | versioned settings, diffed saves, the Teams activation stamp |
| `Regexes.dfy` | regular expressions as data, with whole-text matching |
| `VpnProfile.dfy` | the profile adapter: line machine, grammar, texts |
| `VpnOptions.dfy` | the directives in words: hosts, fixed lines, and the values of each option |
| `VpnOutput.dfy` | what is written of an accepted profile, read off the lines |
| `VpnStatus.dfy` | the VPN status file with crashes at any step, and the controller's methods |
| `Slugs.dfy` | slug cleaning and probing, the channel index, the legacy import |
| `PolicyDiff.dfy` | the audit diff of a channel's policy |
| `StackedChart.dfy` | the stacked usage chart |

## How the world is modelled

* SQL: a table is a sequence of rows. Key order is an arbitrary map from cells to reals, so that any
  collation fits; equality is an arbitrary relation. An answer is any sequence that the statement allows,
  so nothing depends on how a server breaks ties. Sorting and comparing a key use one and the same order. For
  a text key that is also selected this is an assumption about the server: its `ORDER BY` then names the alias
  of the clipped column, so the clipped text must sort as the stored key compares. Metadata is trusted to
  describe its table (types, primary and unique keys, NOT NULL), and stays the same along a run; tables may
  change arbitrarily between pages.
* Clocks, visibility, request outcomes, random identifiers, lower-casing, D-Bus answers and failing system
  calls are parameters or events. A random identifier is never given out twice.
* Processes interleave between any two database statements; one statement, and anything under
  `BEGIN IMMEDIATE`, is one step. Status polls, file operations and crashes are separate steps.
* JSON records are compared by content. `JSON.stringify` equality of two records read the same way is
  equality of the records.
* Reals stand for the chart's and the clock's floating-point numbers.

## Findings

Where the code keeps less than its own description promises, the exact condition is proved.

* `emit` (query.py:451-455): a last page outgrows the limit by at most two bytes when its key encodes shorter
  than the `null` that replaces the cursor, which only a key of at most one character does, and is then replaced
  by `result_too_large`. `QueryBudget.ByteBudget` and `QueryBudget.EmitWithinLimit` say exactly when,
  `QueryBudget.LongKeysArePrinted` which tables are safe, and `QueryWitness.LostPageIsReal` gives a table, its
  answer and the lost page.
* Poller: a reload asked for during a flight is withdrawn by a pause in between, even when the poller is
  active and visible again at the end (`HealthPolling.RestartsExactlyWhenWanted`,
  `HealthPolling.PauseWithdrawsReload`).
* `updateSchedule` without `expected` writes back the claim mark it read. No minute fires twice in any run in which
  no such write lowers the mark (`Schedules.FiresAtMostOnce`); when one does, a claim that had succeeded succeeds
  again exactly if the restored mark is below its minute and the stored record is enabled and otherwise claimable
  (`Schedules.FallenMarkRefires`); `Schedules.BlindEditUndoesClaim` is such a run.
* `updateSchedule` decides on the record it read whether an edit is a new eligibility boundary. Without `expected`
  it can overwrite a row that another process disabled, or gave another cron, in the meantime: the schedule is
  enabled again, or its cron changes back, and no boundary is stored. `Schedules.EditsRenewEligibility` has the exact
  condition (`Overlooks`: enabling and cron of the row it overwrites against the record it read);
  `Schedules.BlindEditReenables` is such a run. Guarded edits always store the boundary.
* The Teams stamp stops being readable from the year 10000 on (`Settings.StampStep`; `Settings.StampLost` is a save
  at that instant).
* `normalizePublicUrl` is not idempotent: a blank before a trailing slash survives the first pass and not the second
  (`Settings.NormalizeTwice` has the exact condition).
* `run` leaves a status file behind exactly when a removal of a present file fails, the first one or the final one
  (`VpnStatus.ExitLeavesNothing`; `VpnStatus.FileLeftBehind` is a run that ends with an accepted file).
* The legacy import says that the first entry keeps its slug. A renamed earlier duplicate can have taken it
  (`LegacyImport.RenameTakesLaterSlug`), and a second channel with an empty slug is dropped by the unique
  index. `LegacyImport.FirstHolderKeeps` and `LegacyImport.AllKeptExactly` have the conditions that can be read off
  an index; beyond them the order of the earlier entries decides (`LegacyImport.OrderDecides`).
* A slug allocated after a collision carries the channel id, lower-cased only. It is one safe path component exactly
  when the cleaned name is free, or else, when name and id together are free, the id is safe text that does not end
  in a dash or dot, or else the id is safe text (`SafeSlugs.NewSlugIsSafeExactly`); `SafeSlugs.SuffixKeepsColon` is
  an id that is not.
* A page's cursor can be too long for the request that would resume after it: the request limit is 16 KiB, a cursor
  up to 4096 characters. `QueryRequestSize.ResumeFitsExactly` says exactly when it fits, `QueryRequestSize.IntegerKeysFit`
  that 32 spare bytes suffice for integer keys, and `QueryRequestSize.LongRequestCannotResume` is a request that fits
  and cannot be resumed.
* `settingsRev` is a double: from 2^53 on a save no longer gives the record another version, and a page can save over
  a change it never saw (`Settings.VersionMovesExactly`, `Settings.StaleSaveAtLimit`).
* The dotted alternative of the `remote` pattern is redundant (`VpnTexts.DottedIsHost`).

## Model

| member | source | states |
|---|---|---|
| QueryRequest.NormalizeExact | services/vpn-image/query.py:99-152 | a request is accepted exactly when it denotes one, field by field, and then as that one; every other value is refused |
| QueryRequest.RefusedForCause | services/vpn-image/query.py:54-152 | every refusal names the first part of the request that denotes nothing, or says that the request is no object or has fields its operation does not take |
| QueryRequest.IdentifierMeans | services/vpn-image/query.py:33 | identifiers are exactly the texts that the pattern matches |
| QueryRequest.SelectRoundTrip | services/vpn-image/query.py:99-152 | every valid select request, rendered as JSON and normalised, is itself again |
| QueryRequest.NormalizedIsValid | services/vpn-image/query.py:54-152 | whatever passes has valid identifiers, distinct columns, bounded filters, a bounded limit, and a cursor only with an order |
| QueryRequest.NormalizeFilters | services/vpn-image/query.py:84-96 | the loop gives the filter list that the request denotes, or the first error |
| QuerySql.KeysetMeans | services/vpn-image/query.py:241-254 | `keyset_column` accepts exactly the only column of the primary key, or a NOT NULL unique column, of one of the eight cursor types |
| QuerySql.LowerMeans | services/vpn-image/query.py:285 | lower-casing a type name changes its ASCII capitals only |
| QuerySql.KeysetIsKey | services/vpn-image/query.py:241-254 | an accepted column is, on every table the metadata describes, never NULL, without repeats, and an integer or string |
| QuerySql.WhereClause | services/vpn-image/query.py:257-262 | one null-safe condition and one parameter a filter, in step |
| QuerySql.BuildSelections | services/vpn-image/query.py:297-308 | text and binary columns are clipped and bring their length parameter, in column order |
| QuerySql.BuildStatement | services/vpn-image/query.py:283-333 | the statement and its parameter list, or the first refusal, for every request |
| QuerySql.CompileFailsExactly | services/vpn-image/query.py:283-324 | compiling fails with an unknown column, a cursor without a key order, or a cursor that is no number on an integer key, each exactly then, and in no other way |
| QuerySql.StatementNames | services/vpn-image/query.py:297-333 | the statement reads the named table in the requested order, and each column by its type: the left part of a text, cast, the left part of binary data as it is, anything else whole |
| QueryMeaning.BindColumns | services/vpn-image/query.py:299-311 | left to right, each clip length reaches its own column whatever surrounds it, and the rest of the parameters are left over |
| QueryMeaning.BindConditions | services/vpn-image/query.py:257-262 | each value reaches its own condition |
| QueryMeaning.CompilePreservesMeaning | services/vpn-image/query.py:283-335 | after binding, an answer is legal for the statement exactly when it is the direct reading of the request: wanted rows, in order, at most limit plus one, cell by cell |
| QueryMeaning.CountMeansFilters | services/vpn-image/query.py:265-280 | `count_rows` counts exactly the rows that match the same filters |
| QueryMeaning.ClipThenNormalize | services/vpn-image/query.py:220-238 | clipping at the server to one more than the limit and then normalising gives the cell and flag of the full value |
| QueryCells.CellIsShown | services/vpn-image/query.py:220-238 | a reader of the JSON gets back every stored null, boolean, integer, finite float, text and byte string, cut to 4096 characters or bytes, anything else as its text; the flag says exactly whether something was cut |
| QueryCells.Base64RoundTrip | services/vpn-image/query.py:233-236 | decoding the encoded bytes gives the bytes |
| QuerySelect.RowCursor.FetchOne | services/vpn-image/query.py:197-201 | a driver cursor hands out the answer row by row |
| QuerySelect.FetchRows | services/vpn-image/query.py:193-202 | the first `maximum` rows, and whether there was another |
| QuerySelect.FillExact | services/vpn-image/query.py:347-367 | the page keeps the longest prefix in which every row fits |
| QuerySelect.ExtendPage | services/vpn-image/query.py:354-361 | one raw row becomes one response row, with its clipped cells counted |
| QuerySelect.FillPage | services/vpn-image/query.py:337-374 | the row loop keeps that longest prefix, its cursor, flag and cell count |
| QuerySelect.SelectRows | services/vpn-image/query.py:334-374 | fetching one row more than the limit and filling gives the page of the paging theorems |
| QuerySelect.ResponseReads | services/vpn-image/query.py:340-374 | field by field, what a caller reads off the response of a page; only a pageable selection has a cursor field |
| QueryPaging.PageShows | services/vpn-image/query.py:283-374 | every legal page reads, cell by cell as stored, as a prefix of what its snapshot still holds for the request, and is marked truncated exactly when something is left; a cursor is given exactly when it is also non-empty |
| QueryPaging.CursorRoundTrip | services/vpn-image/query.py:76-81 | every emitted cursor is accepted and binds to the key it was made from, over all 64-bit integers and strings |
| QueryPaging.ResumeAfterLast | services/vpn-image/query.py:314-324 | the resumed request compiles, is what its JSON normalises to, and asks strictly beyond the last returned key |
| QueryRequestSize.ResumeFitsExactly | services/vpn-image/query.py:458-463 | the next page can be asked for exactly when the request without cursor leaves nine bytes and the quoted cursor |
| QueryRequestSize.IntegerKeysFit | services/vpn-image/query.py:458-463 | a request that leaves 32 bytes can be resumed after any integer key |
| QueryRequestSize.LongRequestCannotResume | services/vpn-image/query.py:458-463 | a valid request that fits, and whose resumption after a long text key does not |
| QueryPaging.NeverTwice | services/vpn-image/query.py:283-374 | however the table changes between pages, the returned keys strictly increase, or for a descending order decrease, in rank, so none comes twice |
| QueryPaging.NothingMissed | services/vpn-image/query.py:283-374 | a run that ends untruncated returned every key present and matching in all snapshots |
| QueryPaging.ExactlyOnce | services/vpn-image/query.py:283-374 | and returned it exactly once, and that page reads as the row stored in its snapshot |
| QueryPaging.FixedTable | services/vpn-image/query.py:265-374 | on a fixed table the pages read as a prefix of the sorted matching rows, completely exactly when the last page is untruncated, with the length `count_rows` reports, in at most one page more than rows |
| QueryProgress.PageExists | services/vpn-image/query.py:283-374 | every compiled request in key order has an answer and a page on every conforming snapshot whose keys fit into a cursor |
| QueryProgress.PagingEnds | services/vpn-image/query.py:283-374 | on a fixed table following the cursor ends: with the last row, or at a row that alone is too large, where the page is empty and has no cursor |
| QueryBudget.ByteBudget | services/vpn-image/query.py:338-374 | the page cannot be extended by the next fetched row; its encoding is within the limit except in one stated case, which needs a key encoding shorter than `null` (at most one character), and then at most two bytes over |
| QueryBudget.EmitWithinLimit | services/vpn-image/query.py:451-455 | nothing longer is printed, and a page is printed as itself exactly outside that case |
| QueryBudget.LongKeysArePrinted | services/vpn-image/query.py:451-455 | when every key of the answer has two or more characters, the page is always printed as itself |
| QueryDelivery.PageDelivered | services/vpn-image/query.py:283-455 | what is printed reads back whole: a page as the rows of the snapshot that it shows, cell by cell as stored, with its flags and cursor; the one kind of page that outgrows the limit as the error in its place |
| QueryBudget.LastPageLost | services/vpn-image/query.py:451-455 | a concrete last page that falls into the case |
| QueryWitness.LostPageIsReal | services/vpn-image/query.py:451-455 | that page is a legal page of a conforming table, and its caller gets an error |
| JsonText.AppendItem | services/vpn-image/query.py:362 | what one more array item adds to the encoding |
| JsonText.ReplaceValue | services/vpn-image/query.py:362 | an object's encoding changes by the difference of one field's value |
| JsonText.EncodeIsAscii | services/vpn-image/query.py:362 | the encoding is ASCII, so its UTF-8 size is its length |
| JsonReader.PrintedReads | services/vpn-image/query.py:451-455 | printing loses nothing: every value that JSON can express reads back from its text as itself |
| Decimal.IntRoundTrip | services/vpn-image/query.py:79-80 | integers of at most twenty digits print to the cursor pattern and parse back |
| HealthPolling.StepKeeps | public/admin-system-health.js:22-75 | every event preserves the invariant of flights, timers, generations and stored data |
| HealthPolling.NeverStallsNeverDoubles | public/admin-system-health.js:28-75 | after every event sequence: at most one flight and one timer, never both; a visible running poller has one of them, a stopped, hidden or paused one no timer; history belongs to the range |
| HealthPolling.GenerationCounts | public/admin-system-health.js:22-27 | the generation moves with exactly the invalidating events |
| HealthPolling.FlightGoesOn | public/admin-system-health.js:28-45 | during a flight nothing starts a second batch, and the generation tells whether something invalidated it |
| HealthPolling.StoredExactlyWhenCurrent | public/admin-system-health.js:46-56 | a settled batch is stored exactly when no invalidating event happened since it began |
| HealthPolling.RestartsExactlyWhenWanted | public/admin-system-health.js:57-67 | at the end of a flight a new batch starts exactly when active, visible and a reload is still wanted; it is full and current |
| HealthPolling.PauseWithdrawsReload | public/admin-system-health.js:61-72 | a run in which the wanted reload never comes |
| HealthPolling.AnswersStored | public/admin-system-health.js:46-55 | a stored batch changes exactly the entries it asked for, each by its own answer: a value clears the error, a failure keeps the value, an abort keeps both |
| HealthPolling.OthersKeepData | public/admin-system-health.js:22-75 | nothing but an answer changes the entries, except that another range empties the history |
| HealthLedger.BatchesExactly | public/admin-system-health.js:28-75 | over every event sequence a batch begins exactly when the events call for one; it is full exactly when a hardware refresh is wanted, nothing complete was stored since the last reload, or that is a minute old, and asks for the current range |
| HealthLedger.StoredIsLast | public/admin-system-health.js:46-56 | "stored since the last reload" is the last full batch that settled whole and not stale with no reload asked for after it |
| HealthPollerObject.HealthPoller.Invalidate | public/admin-system-health.js:22-27 | earlier answers become stale and the armed timer goes; nothing else changes |
| HealthPollerObject.HealthPoller.Run | public/admin-system-health.js:28-43 | `run` up to its await, as the machine step that begins a batch |
| HealthPollerObject.HealthPoller.Reload | public/admin-system-health.js:61-67 | invalidate, ask, and start if possible |
| HealthPollerObject.HealthPoller.OnEnter | public/admin-system-health.js:69 | entering is the machine's step |
| HealthPollerObject.HealthPoller.OnLeave | public/admin-system-health.js:70 | leaving is the machine's step |
| HealthPollerObject.HealthPoller.OnVisibilityChanged | public/admin-system-health.js:71 | a visibility change is the machine's step |
| HealthPollerObject.HealthPoller.OnTogglePause | public/admin-system-health.js:72 | pausing and resuming are the machine's step |
| HealthPollerObject.HealthPoller.OnSetRange | public/admin-system-health.js:73 | a range change is the machine's step |
| HealthPollerObject.HealthPoller.OnRefresh | public/admin-system-health.js:74 | a manual refresh is the machine's step |
| HealthPollerObject.HealthPoller.OnFire | public/admin-system-health.js:59 | a firing timer is the machine's step |
| HealthPollerObject.HealthPoller.OnSettle | public/admin-system-health.js:44-60 | `run` after its await, results stored job by job, is the machine's step |
| RecordTable.ColumnQueryIsScan | src/config/schedules.js:79-85 | where columns mirror records, a query on columns finds what a scan of the records finds, in order |
| Schedules.QueriesSeeTheRecords | src/config/schedules.js:21-142 | after every interleaving of adds, guarded and blind edits, claims and deletes, the per-channel count and list are those of a scan |
| Schedules.Linearizable | src/config/schedules.js:87-142 | after every interleaving the stored table is the fold of the successful operations in commit order; each claim and guarded edit was decided on the very record it replaced, each blind edit on the record it had read |
| Schedules.FiresAtMostOnce | src/config/schedules.js:128-142 | the successful claims of a schedule have strictly increasing minutes, over every interleaving whose patches do not write the mark and whose blind edits do not lower it |
| Schedules.FallenMarkRefires | src/config/schedules.js:87-142 | over every run, a blind edit under way restores the mark it read, and then an earlier successful claim succeeds again exactly when that mark is below its minute and the stored record is enabled and claimable |
| Schedules.ClaimsMeetTheirSnapshot | src/config/schedules.js:128-142 | over every interleaving, a claim committed on a record that was switched on, unfired and agreed with its snapshot; it wrote its minute and key, queued the run of everything but a reminder, and changed nothing else |
| Schedules.ClaimExactly | src/config/schedules.js:133-136 | the condition, field by field, under which a claim goes through |
| Schedules.EditsWritePatches | src/config/schedules.js:87-106 | over every interleaving, a logged edit holds the patch where it names a field and what it read elsewhere, and a new boundary exactly when it switched the schedule on or changed its cron; a guarded one found its expectations on the row it replaced |
| Schedules.BeginReadsExactly | src/config/schedules.js:88-97 | a call gets past its SELECT exactly when the row is there and meets its conditions, and writes nothing yet |
| Schedules.FinishCommitsExactly | src/config/schedules.js:98-105 | a call's write is stored and logged exactly when the row is there and, for a claim or guarded edit, is still the one it read; other rows stay |
| Schedules.EditsRenewEligibility | src/config/schedules.js:90-104 | over every interleaving, an edit that re-enables or changes the cron of the row it replaces stores its new boundary, exactly unless it overlooked that row's enabling or cron; a guarded edit never does |
| Schedules.BlindEditReenables | src/config/schedules.js:87-105 | a run in which a status edit enables a schedule that another process had disabled, without a boundary |
| Schedules.BlindEditUndoesClaim | src/config/schedules.js:87-105 | a run in which one minute is claimed twice |
| ScheduleStoreObject.ScheduleStore.AddSchedule | src/config/schedules.js:73-76 | the row is appended with its mirrored columns |
| ScheduleStoreObject.ScheduleStore.Read | src/config/schedules.js:88-97 | the SELECT half of an edit or claim and its decision, as the machine's step |
| ScheduleStoreObject.ScheduleStore.Write | src/config/schedules.js:98-104 | the UPDATE half, compared with what was read where the source compares |
| ScheduleStoreObject.ScheduleStore.Perform | src/config/schedules.js:87-142 | an uninterrupted call stores exactly what the claim or edit says of the stored record, or nothing, and keeps the columns mirrored |
| ScheduleStoreObject.ScheduleStore.DeleteSchedule | src/config/schedules.js:107-112 | deletes exactly the named row, if it is the channel's, and reorders nothing |
| ScheduleStoreObject.ScheduleStore.CountEnabledForChannel | src/config/schedules.js:79-81 | the count over the columns |
| Acknowledgments.FindAckByMessage | src/config/acks.js:56-64 | finds an acknowledgment exactly when a scan of all records has one, and then the first of the query's answer, whatever its order |
| Acknowledgments.IndexedQueryIsScan | src/config/acks.js:15-58 | after every interleaving, the indexed rows are those of a scan |
| Settings.VersionsIdentifyRecords | src/config/settings.js:56-121 | over every interleaving whose revision stays at most 2^53: one revision a commit, equal versions mean equal records, a guarded save commits only on the record its page was painted from |
| Settings.VersionMovesExactly | src/config/settings.js:107 | a save changes the version exactly while the revision is below 2^53 |
| Settings.StaleSaveAtLimit | src/config/settings.js:92-107 | a run at 2^53 in which a page saves against a record it was not painted from |
| Settings.LastWriterWins | src/config/settings.js:94-98 | each key holds the value of the last committed patch naming it, or its first value; the public URL is normalised, every other value is as sent |
| Settings.PublicUrlIsClean | src/config/settings.js:44-98 | over every interleaving, the stored public URL is empty or has a scheme and no trailing slash once any commit names it, and always if it was so at first |
| Settings.PageSavesItsEdits | public/admin-state.js:108-116 | a page's commit writes every edited key, the public URL normalised, and leaves every other key as it was at that moment |
| Settings.SaveChangesItsKeys | public/admin-state.js:119-123 | the keys reported as changed by a save are exactly those it names with a new value |
| Settings.StampStep | src/config/settings.js:99-105 | the stamp moves exactly with the effective activation, to the clock reading or just past the old stamp, whichever is later, while the year has four digits; afterwards it is unreadable |
| Settings.StampLost | src/config/settings.js:99-105 | a save in the year 10000 after which the stamp is unreadable |
| Settings.StampTracksActivation | src/config/settings.js:99-105 | between any two moments of a run the stamp grew exactly if the activation changed in between, even back and forth |
| Settings.NormalizePublicUrl | src/config/settings.js:44-48 | a given scheme is kept, a missing one becomes `https://`, nothing stays nothing; the result has no trailing slash |
| Settings.BareExactly | src/config/settings.js:45 | what is left of a typed URL is it without the blanks at both ends and then without the trailing slashes, and nothing else is lost |
| Settings.SchemeMeans | src/config/settings.js:47 | a text has a scheme exactly when a beginning of it matches the pattern |
| JsText.TrimExactly | src/config/settings.js:45 | trimming removes the blanks at both ends and nothing else |
| Settings.NormalizeTwice | src/config/settings.js:44-48 | normalising again changes nothing exactly when the stripped text does not end in a blank |
| Settings.DiffSettingsPayload | public/admin-state.js:108-116 | the loop sends exactly the defined values that differ from the baseline's own |
| SettingsStoreObject.SettingsStore.GetSettingsVersion | src/config/settings.js:56-59 | the version of the stored record: never the empty text that asks for no check, and equal to another record's exactly when the revisions are |
| SettingsStoreObject.SettingsStore.SaveSettings | src/config/settings.js:83-121 | the merge loop, stamp and revision: named keys hold what was sent, the public URL normalised, and the rest stays; a conflict comes exactly from another version and leaves the file as it was |
| Regexes.RepeatedClass | services/vpn-image/vpn3.py:138 | a counted character class matches exactly the texts of that length over the class |
| VpnProfile.ScanLines | services/vpn-image/vpn3.py:113-176 | the line loop with its four variables ends with the output, or the refusal, of the line machine that the grammar theorems are about |
| VpnGrammar.ScanReads | services/vpn-image/vpn3.py:117-166 | whatever has been read so far splits into blank lines, directives, closed blocks and one pending block, with seen names and output to match |
| VpnGrammar.ItemsScanned | services/vpn-image/vpn3.py:117-166 | whatever the grammar derives is read without refusal |
| VpnGrammar.LinesAreGrammar | services/vpn-image/vpn3.py:117-176 | lines are accepted exactly when they are a profile: items at most once, required ones present, exclusions kept; the output is the order-preserving image with blocks copied verbatim |
| VpnTexts.TextsAreGrammar | services/vpn-image/vpn3.py:93-176 | the same for texts of at most 256 KiB in UTF-8, of tabs, newlines, printable ASCII and characters beyond the basic plane, and for an IPv4 host; the output splits back into exactly the image lines |
| VpnTexts.AddressMeans | services/vpn-image/vpn3.py:99-103 | an accepted host is four numbers up to 255 without leading zeros, with dots between them |
| VpnTexts.SplitJoin | services/vpn-image/vpn3.py:176 | joined lines split back into themselves |
| VpnTexts.JoinSplit | services/vpn-image/vpn3.py:117 | a text is its lines joined, up to a missing last newline |
| VpnOptions.SlotMeans | services/vpn-image/vpn3.py:77-166 | a line is a directive exactly as a `remote` line with a host name and a port from 1 to 65535, as one of the fixed lines under its whole text, or as an option keyword with a value that the option admits |
| VpnOptions.OptionMeans | services/vpn-image/vpn3.py:77-90 | each option's pattern accepts exactly the values named for it in words: cipher lists, quoted names with escapes, digests, and numbers in their ranges |
| VpnTexts.RemoteMeans | services/vpn-image/vpn3.py:136-143 | a `remote` line passes exactly when it is a host and, in plain decimal, a port from 1 to 65535 |
| VpnOptions.HostNameMeans | services/vpn-image/vpn3.py:138 | the host pattern is: 1 to 253 letters, digits, dots and dashes, alphanumeric at both ends |
| VpnTexts.DottedIsHost | services/vpn-image/vpn3.py:138 | the dotted pattern accepts nothing else |
| VpnOutput.OutputReads | services/vpn-image/vpn3.py:113-176 | read line by line, the output of an accepted profile has exactly its directives in order, less four that are dropped and with two renamed; its blocks line for line; and its one `remote` line as the only one |
| VpnOutput.TextReads | services/vpn-image/vpn3.py:93-176 | the same of texts |
| VpnOutput.StripExactly | services/vpn-image/vpn3.py:118 | stripping removes the spaces and tabs at both ends and nothing else |
| VpnStatus.StepKeeps | services/vpn-image/vpn3.py:217-248 | every step of writer, clock and crash preserves the invariant |
| VpnStatus.AcceptedIsFresh | services/vpn-image/checks.py:70-97 | for a check that reads the file first and the clock later: whenever the marker exists and it accepts, the file was a whole stamp, at most ten seconds old at the clock reading, taken after a connected poll, with at most one later poll of that run before the file was read |
| VpnStatus.AcceptedExactly | services/vpn-image/checks.py:70-97 | over every run the check accepts exactly when a connected poll left a stamp that is still there, not too large to read, at most ten seconds old, and of a live process |
| VpnStatus.OthersRefused | services/vpn-image/checks.py:79-91 | a file that is not regular, that others may read, or that is no connected status document is refused |
| VpnStatus.FirstLossIsLast | services/vpn-image/vpn3.py:310-335 | once connected, the first poll that is not is the run's last |
| VpnStatus.ExitLeavesNothing | services/vpn-image/vpn3.py:359-416 | every exit but a crash leaves no status file, except exactly when removing a present file fails |
| VpnStatus.FileLeftBehind | services/vpn-image/vpn3.py:409-410 | a run that ends with its file still there and accepted |
| VpnStatus.FileFollowsSession | services/vpn-image/vpn3.py:322-335 | between polls of a connected session the file is the last poll's stamp; before there is none |
| VpnControllerObject.VpnController.RemoveStatus | services/vpn-image/vpn3.py:243-248 | removes the file or fails and leaves it, as a step of the machine |
| VpnControllerObject.VpnController.WriteStatus | services/vpn-image/vpn3.py:217-240 | the status becomes the whole new stamp when every call succeeds and stays the old one otherwise, by steps of the machine |
| VpnControllerObject.VpnController.MonitorSession | services/vpn-image/vpn3.py:305-335 | the loop stops at the first turn that is cancelled, fails, loses the connection or ends the startup, with that outcome |
| VpnControllerObject.VpnController.RunSession | services/vpn-image/vpn3.py:359-416 | the controller from first removal to final cleanup; no status file remains unless a removal failed |
| Slugs.Slugify | src/config/paths.js:222-233 | the result is always one safe path component: non-empty, safe characters, no dot or dash at either end |
| Slugs.SlugifyIsStable | src/config/paths.js:222-233 | a slug is its own slug |
| Slugs.CleanKeepsWords | src/config/paths.js:223-229 | the words of a text survive cleaning, each run of other characters between two of them becomes one dash, and what surrounds them goes |
| Slugs.SafeMeans | src/config/paths.js:228 | the characters that survive are those of the pattern's class |
| Slugs.SlugOfIdle | src/config/paths.js:230-232 | a name without a word gives way to the id, and an id without one to a fixed text |
| Slugs.Pigeonhole | src/config/store.js:168-170 | finitely many taken slugs cannot hold all candidates, so probing ends |
| Slugs.FirstFreeUnique | src/config/store.js:168-170 | the first free candidate is one only |
| Slugs.FirstFreeOfRegistration | src/config/store.js:159-170 | the slug of a registration is the cleaned name if free, else that name with the id, else with the least free number from 2 on |
| ChannelIndex.RunKeeps | src/config/store.js:149-197 | over every sequence of calls: distinct slugs, never empty once touched; an allocated slug and a known type or platform never change |
| ChannelIndex.FirstKnownTypeWins | src/config/store.js:172-190 | over every sequence of calls on a channel: a known type stays, otherwise the first known one given is stored and never a later one; likewise the platform; the last name and direct-message flag win |
| ChannelIndex.FirstCallWrites | src/config/store.js:172-190 | a new channel starts with what its first call says |
| Slugs.CandidateIsSlug | src/config/store.js:161-170 | the cleaned name is always a safe component, the first suffix exactly when the lower-cased id can end a slug, the numbered ones exactly when it is safe text |
| SafeSlugs.NewSlugIsSafeExactly | src/config/store.js:155-170 | the slug a new channel gets is a safe component exactly when the name is free, or else name-id is free and the id can end a slug, or else the id is safe text: all read off table and id |
| SafeSlugs.RunSafe | src/config/store.js:149-197 | over every sequence of calls with safe ids all slugs stay safe components |
| SafeSlugs.SuffixKeepsColon | src/config/store.js:161-170 | an id with a colon whose slug after a collision carries it |
| ChannelStoreObject.ChannelStore.TakenByOther | src/config/store.js:164-167 | the lookup finds a slug held by another channel |
| ChannelStoreObject.ChannelStore.UpsertChannelEntry | src/config/store.js:149-197 | the probing loop ends with the first free candidate and exactly the channel's row is written; a refusal writes nothing |
| LegacyImport.ImportChannels | src/db/import-legacy.js:63-76 | the import loop and its inner probing loop end, with the table that the theorems below are about |
| LegacyImport.ImportIsFaithful | src/db/import-legacy.js:63-76 | slugs stay pairwise distinct; a new channel is dropped exactly when its slug is empty and not the first such; it keeps its slug exactly when no earlier row holds it, and otherwise takes the first free numbered one |
| Slugs.FirstFreeOfLegacy | src/db/import-legacy.js:67-72 | an imported channel's slug is its own if free, else with the least free number from 2 on |
| LegacyImport.FirstHolderKeeps | src/db/import-legacy.js:68-73 | unless an earlier new channel's slug with a number is its slug, a new channel keeps its slug exactly when neither the table nor an earlier new channel has it |
| LegacyImport.AllKeptExactly | src/db/import-legacy.js:67-76 | an index of new channels is imported whole and unrenamed exactly when its slugs are pairwise distinct and not in the table |
| LegacyImport.OrderDecides | src/db/import-legacy.js:73 | the same earlier entries in two orders take a numbered slug or leave it free |
| LegacyImport.RenameTakesLaterSlug | src/db/import-legacy.js:68-73 | an index whose third entry loses its own slug to a renamed second |
| PolicyDiff.SortedDecides | src/config/channel-audit.js:70-77 | sorted lists are equal exactly when they are the same multiset |
| PolicyDiff.ComputeDiff | src/config/channel-audit.js:98-121 | the two loops compute the diff that the theorems below are about, list collapse included |
| PolicyDiff.ListChangeIsMultiset | src/config/channel-audit.js:103-106 | list keys and skills changed exactly when the multiset of their non-empty names did |
| PolicyDiff.ScalarChangesExactly | src/config/channel-audit.js:79-107 | any other key changed exactly when its value did, absent and null being one value |
| PolicyDiff.ShapeShows | src/config/channel-audit.js:79-88 | a shape shows the number of skills, the sorted names of a list, a scalar itself, and nothing as nothing |
| PolicyDiff.EntryNameMeans | src/config/channel-audit.js:70-77 | a list entry's name is its text, or an object's `name`, or without one its `id` |
| PolicyDiff.DiffIsExact | src/config/channel-audit.js:98-121 | the keys are precisely the allowlisted keys that changed, in order, each from its shape before to its shape after, lists as counts exactly over the size cap; the cap never drops a key |
| PolicyDiff.BodyIsJson | src/config/channel-audit.js:110 | the size that the cap looks at is that of the JSON text |
| PolicyDiff.SecretsNeverShown | src/config/channel-audit.js:16-18 | no key that holds a secret reaches an audit row |
| PolicyDiff.DiffSwaps | src/config/channel-audit.js:98-121 | swapping the records swaps the two sides and nothing else |
| StackedChart.BandsConserveTotals | public/app.js:731-745 | the bands of a bucket sum to the sum over every listed model |
| StackedChart.BandsOf | public/app.js:731-738 | the first seven models have bands of their own, in order, and all others share one more |
| StackedChart.StackedColumns | public/app.js:749-775 | the two drawing loops with their running totals emit exactly the rectangles of the geometry theorems, in drawing order |
| StackedChart.DrawnExactly | public/app.js:764-774 | a rectangle is drawn exactly for every positive value |
| StackedChart.BandInside | public/app.js:755-774 | for non-negative values every rectangle, also the only band of a chart, stays within the padded height, and stands on the baseline when nothing is drawn below it |
| StackedChart.ColumnsStack | public/app.js:755-774 | for non-negative values the rectangles of a column share edges without gap or overlap, from the baseline up, within the padded height |
| StackedChart.PeakReachesTop | public/app.js:754-756 | the tallest column reaches the padded top exactly |
| StackedChart.PeakIsLargest | public/app.js:754-755 | the peak is the largest total, or a billionth when all are smaller |
| StackedChart.BandIsProportional | public/app.js:755-774 | every rectangle's height is its value's share of the peak, to scale |
| StackedChart.NeighboursDisjoint | public/app.js:757-771 | bars are centred in their buckets, and neighbours are disjoint exactly when there are at most 300 buckets |
| StackedChart.GapsAre | public/app.js:757-758 | the gap between neighbours is two units up to thirty buckets and a fifth of a bucket up to 240; from there on bars are one unit wide |
| StackedChart.BarsInside | public/app.js:757-771 | with at most 300 buckets every bar lies within the chart |

## Left out

- FiresAtMostOnce: assumes that no patch writes `lastCronFireMs` and that no blind edit lowers the mark; `FallenMarkRefires` says exactly what happens otherwise.
- FallenMarkRefires: the repeated claim follows the edit directly; patches that write `lastCronFireMs` are left out.
- EditsRenewEligibility: the exactness half assumes that the edit's clock reading is not already the stored boundary.
- FirstHolderKeeps: where an earlier slug with a number is this slug, only `ImportIsFaithful`, in terms of the rows imported so far, decides; the order of the index matters there.
- StampTracksActivation: assumes that no patch names the stamp and that the new instants stay before the year 10000; a clock beyond what a `Date` can print is left out.
- ColumnsStack: real arithmetic; `toFixed` and floating-point rounding are not modelled.
- VersionsIdentifyRecords: assumes that the revision stays at most 2^53; beyond that only `VersionMovesExactly` at the limit is modelled.
- PageDelivered: assumes that Python prints a finite float with a point or an exponent, which makes it read back as a float.
- FirstKnownTypeWins: assumes that no platform has the empty name.
- RefusedForCause: of a list or object where a word is expected (a Python TypeError) it says only where it stands.
- LongRequestCannotResume: sizes are those of a sender that escapes like the tool itself; senders agree on printable ASCII.
- AcceptedIsFresh: one controller at a time, and nothing else writes the status file; process identifiers may be reused.
- SlugifyIsStable: for slugs that lower-casing leaves alone; `toLowerCase` itself is a parameter.
- MonitorSession: the progress events it prints, and which of the fixed startup error classes it raises, are not modelled.
- SaveSettings: a stored or submitted public URL is a string and the stored revision an integer; the file's permissions and the environment variables it feeds are left out.
- FindAckByMessage: the acknowledged-message list is a list when it is there.
- ComputeDiff: texts of unusual values and the JSON length of one value are parameters; names sort by code point where JavaScript sorts by UTF-16 unit, which changes the order shown but not what counts as changed.
- The describe and list operations of the query tool, connecting, route checks, timeouts and error classification: no state beyond one statement.
- MySQL's own evaluation, collations and drivers: replaced by the abstract engine above.
- The HTTP route between a settings page and `saveSettings`: assumed to pass patch and version on unchanged.
- The poller's `publish`, the abort signal and the rendering of any page.
- `claimScheduleMinute` compares the stored JSON text; the model compares the record it stands for.
- The scheduler that issues claims, escalation of acknowledgments, and the fields `addSchedule` derives from its arguments.
- `provide_credentials`, the D-Bus stages before monitoring and `classify_client_logs`: retries without a protocol of their own.
- Registration limits: whether a new channel finds room is a parameter.
- Migration 8's repair of duplicate slugs, channel metadata and sessions of the import.
- Liveness under fairness, wall-clock drift, Unicode case folding.
