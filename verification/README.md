# Verified models of a telecom operations app

Each module models one stateful or arithmetical piece of the application and
proves what it promises over all inputs and all runs. Objects and module-level
variables the source updates are classes whose methods are proved against
functions on values; protocols are state machines over their statements, with
every await a step boundary.

- `Splitter`, `Ingest`, `IngestAccounting`, `IngestTick`: tailing a remote log
  file through a cursor. The file, the settings and every statement's outcome
  are chosen freely by the environment at each pass.
- `Sweep`, `Charts`: concurrent calls per minute. The specification is the
  maximum number of half-open calls `[start, end)` alive at an instant of the
  minute, in whole milliseconds.
- `DidCollapse`, `DidWalk`, `DidProtocol`: one walk over the purchased numbers,
  its collapse to one row per key, and the lease, insert, publish and cleanup
  statements of any number of processes that interleave, fail and crash.
- `LikePattern`, `GeographyRows`, `GeographyPlans`, `GeographyFacets`: the
  relation behind the geography list, its two query plans, and the filter menus.
- `LiveCallJoin`, `LiveCallOrder`, `Paging`: live calls, from pages to rows.
- `RateLimit`, `JobRuntime`, `PstnBreaker`, `PstnAnswer`: the sliding window,
  the in-flight flags with the scheduler that sets them, and the PSTN breaker.
- `CsvSplit`, `Utf8`, `Money`: three functions on text.
- `Wrappers`, `Text`, `Sorting`: option types, trimming, digits, a total order
  on strings, and sorting by a total preorder.

Where a promise does not hold of the code, the code is kept and the exact
condition is proved, with an input on which the promise fails:

- Log bytes can be forgotten, exactly when a source path is adopted at a size
  shorter than the recorded one (`PassAccounts`, `ShorterAdoptionForgets`).
- A minute can show one call too many or more, exactly when two or more calls
  end on its opening instant and it does not get that busy by itself
  (`ShownBounds`, `TwoEndsOvercount`).
- The level a minute carries on depends on which of several equal last events the
  aggregate keeps. How far that can go, and exactly when it cannot matter, is
  proved (`FilledWithin`, `SettledIff`, `TwoStartsLeftOpen`).
- The visible DID generation holds its publisher's walk exactly as long as no
  statement deletes or inserts its rows and no publish misses its own rows
  (`CompleteIffHarmless`, `CompleteIffUntouched`). A late `finally` of a process
  that lost its lease breaks that before or after the other's publish, and so
  does a publish that commits but throws (`LateDeleteEmptiesVisible`,
  `EarlyDeleteSpoilsPublish`, `UnseenPublishEmptiesVisible`).
- The comment over `geographyMatchKeySql` says its number is already trimmed,
  but SQL trims spaces only (`SqlKeyAgrees`, `TabbedKeysDiffer`).
- The count beside a filter value is more than the list has once it is picked,
  exactly when a counted cell has white space around it that SQL left, or is the
  empty-cell token itself (`CountIsTotal`, `TabbedCellIsLost`).
- Two different purchased pairs share a key exactly when one is the other shifted
  across a NUL (`SameKeyIff`, `NoRepeatedPairIff`, `NulConfusesPairs`).
- The in-flight flags stop telling what is live exactly when a rejection handler
  fires while the next job of its action is live (`AlwaysInvIff`); the next
  accepted enqueue then overlaps (`UntimelyOverlaps`, `LateHandlerBreaksOverlap`).
  The runtime's other results assume it does not.
- A month purge is refused during an import, but not the other way round
  (`ImportDuringPurge`).
- `truncateUtf8` exceeds a positive bound below its suffix's 15 bytes
  (`BoundIff`, `ShortBoundOverruns`), although its comment promises at most `maxBytes`.

## Model

| member | source | states |
|---|---|---|
| Splitter.TakeCompleteRecords | src/modules/antifraud/cursor.ts:17-42 | One read yields the split of pending plus incoming bytes: records that each end at their first separator and tile the stream from its offset, a pending block without a separator, and the next offset |
| Splitter.SplitUnique | src/modules/antifraud/cursor.ts:17-42 | A byte stream has exactly one such split, so that contract fixes the result |
| Splitter.TakeTwice | src/modules/antifraud/cursor.ts:17-42 | Two reads in a row yield what one read of both would |
| Splitter.ChunkingIrrelevant | src/modules/antifraud/cursor.ts:17-42 | For every stream and every way of cutting it into reads, threading pending and offset yields the records, offsets and final pending of a single read |
| Splitter.CutsAgree | src/modules/antifraud/cursor.ts:17-42 | Two ways of cutting one stream cannot be told apart |
| Ingest.NothingSkipped | src/modules/antifraud/ingest.ts:184-209 | Rows that tile the space after everything stored are all inserted: `skipDuplicates` drops none |
| Ingest.CommitKeeps | src/modules/antifraud/ingest.ts:184-209 | A committed read keeps the invariant and appends exactly the bytes read to what rows and pending hold |
| Ingest.FlushLands | src/modules/antifraud/ingest.ts:106-159 | A reset's flush of the pending block is never skipped and never collides; the closed generation then tiles from 0 to the byte offset |
| Ingest.ResetKeeps | src/modules/antifraud/ingest.ts:106-159 | A reset keeps the invariant, loses no row and starts an empty generation |
| Ingest.PassKeeps | src/modules/antifraud/ingest.ts:285-361 | Any pass of the loop, whatever stat, settings, chunk and database do, keeps the invariant; content grows by exactly the bytes read or restarts empty |
| IngestAccounting.PassAccounts | src/modules/antifraud/ingest.ts:230-240 | A pass leaves every known offset in a row, pending, below the known size or in a gap if and only if it does not adopt a source at a size shorter than the one recorded |
| IngestAccounting.ResetTilesOnce | src/modules/antifraud/ingest.ts:106-159 | At every reset each offset below max(byteOffset, fileSize) of the closed generation is in exactly one row or in the reset's own gap, and no other offset is in either |
| IngestAccounting.TruncationGapIsUnread | src/modules/antifraud/ingest.ts:161-182 | When a truncation gap is written it holds exactly the known offsets past the new end, none of them read |
| IngestAccounting.ContentIsBytesRead | src/modules/antifraud/ingest.ts:279-363 | Over a whole life, rows and pending of the current generation are, byte for byte, the chunks committed since the last reset |
| IngestAccounting.ReachableTiling | src/modules/antifraud/ingest.ts:279-363 | In every reachable state the current generation's rows and pending are the split of the bytes read since its reset, byteOffset is their number, the rows tile [0, byteOffset - pending), and closed generations tile too |
| IngestAccounting.LifeForgetsNothing | src/modules/antifraud/ingest.ts:279-363 | Over a whole life without a shortening adoption an accounted offset stays accounted |
| IngestAccounting.ShorterAdoptionForgets | src/modules/antifraud/ingest.ts:230-240 | Two concrete passes after which a known offset is neither stored nor in a gap |
| IngestAccounting.ClosedIsFrozen | src/modules/antifraud/ingest.ts:106-209 | Rows and gaps of a closed generation never change again |
| IngestTick.TickMemory.FoldFileSwitch | src/modules/antifraud/cursor.ts:141-147 | Folding moves this file's totals into the prior ones |
| IngestTick.IngestStore.ApplyReset | src/modules/antifraud/ingest.ts:106-159 | The state row, calls and gaps after a reset are those of the reset on values |
| IngestTick.IngestStore.ApplyTruncateTail | src/modules/antifraud/ingest.ts:161-182 | The same for a truncated tail |
| IngestTick.IngestStore.CommitChunk | src/modules/antifraud/ingest.ts:184-209 | The same for a committed chunk |
| IngestTick.IngestStore.MarkCaughtUp | src/modules/antifraud/ingest.ts:211-222 | The same when there is nothing to read |
| IngestTick.IngestStore.AdoptSource | src/modules/antifraud/ingest.ts:230-240 | The same for an adopted source |
| IngestTick.IngestStore.ReadOnce | src/modules/antifraud/ingest.ts:285-361 | One turn of the loop has the effect of one pass on store, memory and budget, including the paths where a statement throws |
| IngestTick.IngestStore.ReadOnConnection | src/modules/antifraud/ingest.ts:279-363 | The loop on one connection has the effect of its passes one after another |
| IngestTick.IngestStore.ReadTarget | src/modules/antifraud/ingest.ts:365-381 | A tick has the effect of its connections one after another under one budget |
| IngestTick.DrainParkingCalls | src/modules/antifraud/ingest.ts:383-419 | A tick that is locked out, behind the vacuum or without a key changes nothing; any other drains from an empty memory and writes the planned stamp |
| IngestTick.TickKeeps | src/modules/antifraud/ingest.ts:365-381 | A whole tick keeps the invariant, however its connections end |
| IngestTick.TickBudget | src/modules/antifraud/ingest.ts:279-381 | In any environment a tick reads less than its budget plus one read, shared across reconnects, file switches and failures |
| IngestTick.TickStamp | src/modules/antifraud/cursor.ts:129-146 | The stamp of a tick is determined by the bytes its own reads took in, whether one of them held a record, and how it ended |
| IngestTick.StampsAgree | src/modules/antifraud/cursor.ts:129-146 | Two ticks that read as much, found records alike and ended alike have the same stamp, wherever their file switches fell |
| IngestTick.StillTerminates | src/modules/antifraud/ingest.ts:285-376 | Against an unchanging file and target the loop ends, with at most one adoption, at most one reset or truncation and at most one read per unread byte, at the end of the file or the budget |
| IngestTick.StillIsReadLoop | src/modules/antifraud/ingest.ts:285-363 | Those runs are runs of the read loop: some script of passes that all show the unchanging file ends in the same store, memory, budget and outcome |
| IngestTick.StillDrains | src/modules/antifraud/ingest.ts:285-376 | What is stored afterwards is the file itself, split into its records |
| Sweep.FillConcurrencyMinutes | src/modules/dashboard/concurrency.ts:245-269 | Every minute gets its row's peak, with the carry unless an event stands on its opening instant, and a quiet minute the chained carry, clamped at zero |
| Sweep.MaxOccupancyBounds | src/modules/dashboard/call-query.ts:41-100 | The specification's maximum is an upper bound of the occupancy at every instant and is reached at one |
| Sweep.RunningTracks | src/modules/dashboard/call-query.ts:48-76 | In any order the sort may give, partial sums count the calls alive, for all instants before the series end |
| Sweep.LevelBound | src/modules/dashboard/call-query.ts:60-76 | No running level exceeds the occupancy at a start, or the occupancy just before an end less one |
| Sweep.RunningCounts | src/modules/dashboard/call-query.ts:56-76 | The running order holds each start and each end as often as the calls do |
| Sweep.CarryWithin | src/modules/dashboard/concurrency.ts:245-269 | Whichever of the tied rows the aggregate keeps, chaining `levelAtEnd` through quiet and busy minutes gives the occupancy just before the minute, less at most all but one of the calls that start last before it, or more by all but one of those that end last |
| Sweep.ExactCarryIsShown | src/modules/dashboard/call-query.ts:48-100 | From the occupancy before it, a minute is filled with its true maximum, except that two or more calls ending on its opening instant let the level carry - 1 in |
| Sweep.FilledWithin | src/modules/dashboard/call-query.ts:48-100 | Sorting, summing, aggregating and filling, with every choice among ties, give each minute that value to within those tied calls |
| Sweep.SettledIff | src/modules/dashboard/call-query.ts:76-100 | Every table the query may return gives the minute exactly that value if and only if it has an event on its opening instant, or no events tie for the last place before it, or its own peak covers the difference |
| Charts.WindowFacts | src/modules/dashboard/concurrency.ts:56-96 | Both series end in the open minute and begin a full day after the scan start |
| Charts.ScanIsEnough | src/modules/dashboard/call-query.ts:48-60 | Occupancy a day after the scan start is that of all records |
| Charts.ScanCannotMatter | src/modules/dashboard/concurrency.ts:71-96 | No record outside the scan can change a shown minute, because durations are capped at a day |
| Charts.ScanKeepsTies | src/modules/dashboard/concurrency.ts:71-96 | Nor which calls start or end last before an instant of the series |
| Charts.ParseMinuteEvents | src/modules/dashboard/calls.ts:506-535 | Keys become minutes since the origin, and a list is refused if and only if it is no list or one item is malformed |
| Charts.BuildSeries | src/modules/dashboard/calls.ts:495-504 | No series if and only if the list is refused, else the filled minutes of its rebased rows |
| Charts.SeriesFromRows | src/modules/dashboard/calls.ts:302-338 | Unavailable if and only if there is no row or a list is refused; else, if the row answers the query for some records, both charts show for each of their minutes what all records, scanned or not, give that absolute minute, to within the calls that tie before it, with their peaks |
| Charts.ChartsAgree | src/modules/dashboard/call-query.ts:76-111 | On every absolute minute they share the two series differ at most by the calls that tie before it, and so not at all when one event comes last |
| Charts.ShownBounds | src/modules/dashboard/call-query.ts:76-100 | true maximum <= shown <= max(true maximum, carry - 1), and shown is exact if and only if at most one call ends on the opening instant or carry - 1 does not exceed the maximum |
| Charts.TwoEndsOvercount | src/modules/dashboard/call-query.ts:76-100 | Two calls that end on a minute start make that empty minute show 1 |
| Charts.TwoStartsLeftOpen | src/modules/dashboard/call-query.ts:76-100 | After two calls that start together as the last events of a minute, the next minute may show 1 or 2 while both are alive throughout it |
| DidCollapse.DisplayKeepsKey | src/modules/number-geography/did-snapshot.ts:90-97 | A displayed number has the match key of the number it stands for |
| DidCollapse.GeographyDidRowId | src/modules/number-geography/did-snapshot.ts:99-103 | A row id starts with `did:` and has at most 64 UTF-16 code units |
| DidCollapse.ShortKeysHaveOwnIds | src/modules/number-geography/did-snapshot.ts:99-103 | Keys of up to sixty code units have distinct row ids |
| DidCollapse.CollapseDidSources | src/modules/number-geography/did-snapshot.ts:156-181 | One row per match key, in key order, each with the display, provider and row id of its group |
| DidCollapse.CollapseIgnoresOrder | src/modules/number-geography/did-snapshot.ts:156-181 | The rows depend only on the set of items: every permutation and repetition gives the same |
| DidCollapse.CollapseUnique | src/modules/number-geography/did-snapshot.ts:156-181 | The rows are determined by the items |
| DidCollapse.PickIsLeast | src/modules/number-geography/did-snapshot.ts:150-154 | The display picked is the least 7-form if there is one, else the least display |
| DidCollapse.RowShowsMember | src/modules/number-geography/did-snapshot.ts:150-181 | A row shows a display of a member of its group: the 7-form exactly if some member is eleven digits long |
| DidCollapse.ProviderIffOne | src/modules/number-geography/did-snapshot.ts:165-178 | A row has a provider if and only if its group has exactly one distinct label, and it is that one |
| DidWalk.PurchasedWalk.NotePurchasedTotal | src/modules/number-geography/did-snapshot.ts:109-115 | A total is accepted if and only if it is an integer in range and the same as before |
| DidWalk.PurchasedWalk.AcceptPurchasedItems | src/modules/number-geography/did-snapshot.ts:130-148 | A page is accepted if and only if every object is purchased and readable and no pair is repeated so far |
| DidWalk.CollectPurchasedSources | src/modules/number-geography/did-snapshot.ts:188-217 | The walk succeeds if and only if its drain ends with the lease held and its pages are a complete walk; its rows are then the collapse of all their items |
| DidWalk.FinishPurchasedWalk | src/modules/number-geography/did-snapshot.ts:183-186 | The last check passes if and only if the objects add up to the one total |
| DidWalk.SameKeyIff | src/modules/number-geography/did-snapshot.ts:143-145 | Two pairs share a key if and only if they are one pair, or the number of one is the number of the other, a NUL and the head of its provider code |
| DidWalk.NoRepeatedPairIff | src/modules/number-geography/did-snapshot.ts:143-145 | So the pair keys refuse a repeated pair and a pair shifted across a NUL, and nothing else |
| DidWalk.PairsAreItems | src/modules/number-geography/did-snapshot.ts:143-145 | Where no number holds a NUL they refuse a repeated number and provider code and nothing else |
| DidWalk.NulConfusesPairs | src/modules/number-geography/did-snapshot.ts:143-145 | With a NUL in a number two different pairs share a key |
| DidProtocol.GenerationStep | src/modules/number-geography/did-snapshot.ts:362-371 | With no timing assumption a statement moves the generation by one at most, only at a publish, only with the publisher's token in the row and the generation it read |
| DidProtocol.GenerationGrows | src/modules/number-geography/did-snapshot.ts:249-298 | Over any interleaving of any processes the generation never falls and grows by at most one per publish |
| DidProtocol.BaseKept | src/modules/number-geography/did-snapshot.ts:249-371 | With no assumption on time, on the lease or on what a caller hears back: tokens stay apart, walks in hand stay complete, and nobody publishes under a holder |
| DidProtocol.StepCompleteIff | src/modules/number-geography/did-snapshot.ts:249-371 | After any statement of any process readers see the walk of the generation's publisher if and only if the statement neither changed the visible generation's rows nor published a generation without its rows |
| DidProtocol.CompleteIffHarmless | src/modules/number-geography/did-snapshot.ts:249-371 | Over any run at all, with no assumption, readers always see that walk if and only if no statement of the run is of that kind |
| DidProtocol.CompleteIffUntouched | src/modules/number-geography/did-snapshot.ts:249-371 | Where nobody without the token changes the generation under construction, they do if and only if no delete and no insert ever changes the visible generation |
| DidProtocol.StepKeeps | src/modules/number-geography/did-snapshot.ts:249-298 | Every statement of every process that respects the lease keeps the invariant, failures and crashes included |
| DidProtocol.VisibleIsComplete | src/modules/number-geography/did-snapshot.ts:249-371 | Over all interleavings, failures and crashes in which the visible generation and the one after it change only under the token and a committed publish is heard of, readers always see exactly the rows that the publisher collapsed out of its own complete walk |
| DidProtocol.QuietDatabase | src/modules/number-geography/did-snapshot.ts:304-311 | A database with no process at work starts such a run |
| DidProtocol.HolderInserts | src/modules/number-geography/did-snapshot.ts:349-361 | A holder's insert is never refused and adds its next chunk behind the rows it already put there |
| DidProtocol.LateDeleteEmptiesVisible | src/modules/number-geography/did-snapshot.ts:285-287 | A concrete run, for all rows, in which a late `finally` of a process that lost its lease empties the generation another one has published |
| DidProtocol.EarlyDeleteSpoilsPublish | src/modules/number-geography/did-snapshot.ts:285-287 | A concrete run in which that `finally` comes before the publish, and the token holder publishes a generation without its rows |
| DidProtocol.UnseenPublishEmptiesVisible | src/modules/number-geography/did-snapshot.ts:271-287 | A concrete run in which a publish commits, its call throws, and the visible generation is emptied while the token is still in the row |
| DidProtocol.SomeCompleteWalk | src/modules/number-geography/did-snapshot.ts:183-217 | Complete walks with rows exist, so the three runs above do |
| LikePattern.EscapedLikeIsContains | src/modules/number-geography/sql.ts:176-185 | Whatever the search text holds, the escaped pattern matches exactly the numbers that contain it |
| GeographyRows.SqlKeyAgrees | src/modules/number-geography/sql.ts:248-258 | The query's key equals the walk's if and only if the number has a digit or both trims leave the same text |
| GeographyRows.TabbedKeysDiffer | src/modules/number-geography/sql.ts:248-258 | They differ on a letter with a tab before it |
| GeographyRows.OneRowEach | src/modules/number-geography/sql.ts:302-334 | With unique match keys the base has one row per listed endpoint, shown with its DID row if there is one, and one row per DID row without an endpoint |
| GeographyRows.VisibleKeysAreUnique | src/modules/number-geography/sql.ts:292-300 | In every run of the DID protocol that respects the lease the rows the join reads have unique keys |
| GeographyPlans.ActiveFilterColumns | src/modules/number-geography/sql.ts:90-102 | Exactly the columns with a non-empty filter, but for the excluded one |
| GeographyPlans.WhereFor | src/modules/number-geography/sql.ts:161-174 | Exactly one scope's active columns become clauses, with their own values |
| GeographyPlans.BuildCheapWhere | src/modules/number-geography/sql.ts:193-212 | The cheap WHERE holds of a base row if and only if it passes the search, the flags and every cheap filter |
| GeographyPlans.BuildExpensiveWhere | src/modules/number-geography/sql.ts:240-245 | The expensive WHERE holds of a labelled row if and only if it passes every expensive filter |
| GeographyPlans.ListProjection | src/modules/number-geography/sql.ts:69-75 | The page plan is chosen if and only if no expensive column is filtered |
| GeographyPlans.FacetProjection | src/modules/number-geography/sql.ts:77-87 | The same for a facet, which leaves its own column's filter out and may not be expensive itself |
| GeographyPlans.SplitIsWhole | src/modules/number-geography/sql.ts:429-555 | Cheap filters before labelling and expensive ones after it keep exactly the rows that all filters keep after labelling, in the same order |
| GeographyPlans.PagePlanIsPage | src/modules/number-geography/sql.ts:504-522 | With no expensive filter, filter-sort-limit-label returns the rows of label-filter-sort-limit in the same order, for every ordering the database may pick |
| GeographyPlans.CatalogPlanIsPage | src/modules/number-geography/sql.ts:537-555 | The catalog plan returns that page for every filter set |
| GeographyPlans.PageIsUnique | src/modules/number-geography/sql.ts:504-555 | With unique ids a page is determined, so the two plans cannot differ |
| GeographyPlans.PagesCover | src/modules/number-geography/sql.ts:495-555 | Enough pages put together are the whole ordered list, and the count is their length |
| GeographyPlans.ToolbarCountsAreTotals | src/modules/number-geography/sql.ts:214-228 | Each toolbar count is the total the list has with that flag and nothing else |
| GeographyPlans.ListNumberGeography | src/modules/number-geography/service.ts:161-238 | The list returned is the requested page, after clamping, of the labelled, filtered, ordered relation and the total its length, whichever plan ran; the toolbar counts ignore the request |
| GeographyFacets.AggregateFacetItems | src/components/column-filters/types.ts:135-170 | Each token the search finds, once, with the number of its cells, highest counts first; what the limit cuts off comes after everything listed |
| GeographyFacets.ListFacets | src/modules/number-geography/service.ts:253-290 | A menu is that of the labelled rows that pass every other filter, whichever plan ran and in whatever order the groups came; an unknown column has none |
| GeographyFacets.CountIsTotal | src/components/column-filters/types.ts:124-150 | The count beside a value is never below the total of the list once that value is picked, and equals it if and only if each counted cell is trimmed and not the empty-cell token itself |
| GeographyFacets.TabbedCellIsLost | src/components/column-filters/types.ts:124-129 | A cell with a tab before it is counted under a value whose list is empty |
| GeographyPlans.BaseIdsAreUnique | src/modules/number-geography/sql.ts:302-334 | The ids the plans rely on are unique in the base relation of any database whose endpoint and DID ids are |
| LiveCallJoin.JoinLiveCalls | src/modules/live-calls/join.ts:43-82 | The output is the plan of paired indices, rendered: switching rows in order, leftover routing rows id by id, then blank ones |
| LiveCallJoin.PickSwitchSeconds | src/modules/live-calls/join.ts:84-95 | The first explicit duration of the halves, else the first text, else blank if either was read, else none |
| LiveCallJoin.SwitchingValuesShown | src/modules/live-calls/join.ts:61-118 | Whoever it is paired with, every switching row shows all its values, and in its own place |
| LiveCallJoin.RoutingValuesShown | src/modules/live-calls/join.ts:61-118 | Every routing row shows all its values in the one output row it lands in |
| LiveCallJoin.IdsShown | src/modules/live-calls/join.ts:97-118 | An output row carries the trimmed conference id of each half it has |
| LiveCallJoin.EveryRightOnce | src/modules/live-calls/join.ts:43-82 | Every routing row lands in exactly one output row |
| LiveCallJoin.EveryLeftOnce | src/modules/live-calls/join.ts:61-72 | Every switching row lands in exactly one output row, in its own place, and no other row has a left half |
| LiveCallJoin.IthWithIth | src/modules/live-calls/join.ts:61-72 | Two rows share an output row if and only if they have one non-blank trimmed id and the same rank in it |
| LiveCallJoin.LengthIsSumOfLarger | src/modules/live-calls/join.ts:43-82 | The output is as long as the larger count of every id, summed, plus all blanks |
| LiveCallOrder.CanonicalOrder | src/modules/live-calls/order.ts:11-22 | Text order of canonical stamps is calendar order, field by field |
| LiveCallOrder.ComparesByCalendar | src/modules/live-calls/order.ts:52-62 | A row goes first if and only if it is a time and the other is none or an earlier one, and last if and only if that holds the other way round; so two compare equal just when both are one time or neither is a time |
| LiveCallOrder.LayoutsAgree | src/modules/live-calls/order.ts:1-22 | Both layouts of one time, with or without the comma, read as the same fields |
| LiveCallOrder.OrderLiveCallsByStart | src/modules/live-calls/order.ts:67-78 | The list is a rearrangement of the rows, newest first, non-times last, equals in their old order |
| LiveCallOrder.StableOrderIsUnique | src/modules/live-calls/order.ts:67-78 | There is only one such rearrangement, whatever sort the engine uses |
| RateLimit.SlidingWindowRateLimiter.Check | src/lib/rate-limit.ts:20-39 | The decision on the key's pruned list, and the lists after it, with every other key's list unchanged |
| RateLimit.SlidingWindowRateLimiter.IsBlocked | src/lib/rate-limit.ts:42-46 | True if and only if a check would be refused; nothing is written |
| RateLimit.PrunedDecidesLikeFullHistory | src/lib/rate-limit.ts:20-39 | For every run with a nondecreasing clock the pruned list decides exactly as the full history would |
| RateLimit.WindowsHoldTheLimit | src/lib/rate-limit.ts:20-39 | Every window (T - W, T], for every T, holds at most `limit` accepted hits per key |
| RateLimit.HintIsLeast | src/lib/rate-limit.ts:25-30 | After a refusal a check some whole seconds later is accepted if and only if the seconds reach `retryAfterSec` and the limit is not zero |
| JobRuntime.AcceptedIff | src/modules/jobs/runtime.ts:122-185 | An enqueue is accepted if and only if the action is supported, not in flight and meets none of the exclusions |
| JobRuntime.PQueueJobRuntime.Enqueue | src/modules/jobs/runtime.ts:122-193 | Refuses with the first reason in the source's order, or sets the flag and the gate |
| JobRuntime.PQueueJobRuntime.Finish | src/modules/jobs/runtime.ts:249-254 | The `finally` of a job clears gate and flag, and a throw leaves a rejection handler behind |
| JobRuntime.PQueueJobRuntime.Reject | src/modules/jobs/runtime.ts:321-322 | The late handler clears the flag once more |
| JobRuntime.PQueueJobRuntime.OccupyPhonesSync | src/modules/jobs/runtime.ts:109-115 | An activation is accepted if and only if `phones.sync` is not in flight, and then holds its flag |
| JobRuntime.PQueueJobRuntime.VacatePhonesSync | src/modules/jobs/runtime.ts:115-119 | Its `finally` gives the flag back |
| JobRuntime.StepKeepsIff | src/modules/jobs/runtime.ts:101-322 | Every step keeps the invariant if and only if it is not a late handler that finds live work of its action |
| JobRuntime.AlwaysInvIff | src/modules/jobs/runtime.ts:101-322 | Over every run the invariant holds throughout if and only if no late handler of the run finds live work of its action |
| JobRuntime.UntimelyOverlaps | src/modules/jobs/runtime.ts:122-322 | After a late handler that does, the next accepted enqueue makes its action live twice |
| JobRuntime.NeverTogether | src/modules/jobs/runtime.ts:101-255 | In every reachable state no action is live twice, the vacuum is never live beside a blocking action, and the gate is on if and only if the vacuum is live |
| JobRuntime.PurgeNeedsNoImport | src/modules/jobs/runtime.ts:134-146 | A month purge is never accepted while an import is live |
| JobRuntime.ImportDuringPurge | src/modules/jobs/runtime.ts:134-146 | The exclusion is one-way: an import is accepted during a purge |
| JobRuntime.LateHandlerBreaksOverlap | src/modules/jobs/runtime.ts:253-322 | Throw, enqueue, late delete, enqueue: one action is live twice |
| JobRuntime.TickCatalog | src/modules/jobs/scheduler.ts:397-431 | The scheduler starts a catalog load if and only if it is enabled and neither load nor `regs.poll` is in flight; it is then never refused, and only a blocked tick comes back early |
| JobRuntime.TickRegs | src/modules/jobs/scheduler.ts:378-387 | `regs.poll` is started if and only if it is enabled and not in flight |
| JobRuntime.CatalogStartsAlone | src/modules/jobs/scheduler.ts:113-126 | In every reachable state a load the scheduler starts finds no other load and no poll live |
| Paging.ConferenceIdSet | src/modules/live-calls/pages.ts:10-20 | The set of the non-blank trimmed ids |
| Paging.CollectIncomingGroupPages | src/modules/groups/rtu-read.ts:219-253 | A list is returned if and only if full, non-repeating pages end in a short one before the cap, and it is then all of them |
| Paging.SelectAllPages | src/modules/live-calls/snapshot.ts:853-914 | The same for live calls, with the duration column dropped after a fault and a flag for every row; a truncated list is some first pages |
| Paging.CompleteIsTable | src/modules/live-calls/pages.ts:37-57 | Against a standing table with distinct ids a read is complete if and only if the table ends below the cap, and is then the table |
| Paging.CompleteCallsAreTable | src/modules/live-calls/snapshot.ts:853-914 | The same for live calls, row for row with or without the duration column as its flag says, wherever the server faults |
| Paging.IgnoredOffsetIsCut | src/modules/live-calls/pages.ts:46-49 | A server that answers every offset with one full page is read once: that page comes back, truncated |
| Paging.FlagsAligned | src/modules/live-calls/snapshot.ts:906-909 | Flags are aligned with rows, none is set when the column is not asked for, and once one is not set no later one is |
| Paging.CollectEquipmentPages | src/modules/phones/rtu-read.ts:328-364 | A list is returned if and only if full pages end in a short one in time with no blank or repeated key on the way; without a count only the first page is read |
| Paging.CompleteEquipmentIsTable | src/modules/phones/rtu-read.ts:328-364 | A standing table is returned if and only if its keys are good and it ends below the cap |
| PstnBreaker.PstnFill.Blocked | src/modules/number-geography/pstn-fill.ts:90-99 | True if and only if a block is running; a network block that has run out is cleared with its strikes |
| PstnBreaker.PstnFill.CooledDown | src/modules/number-geography/pstn-fill.ts:101-109 | True if and only if the phone's cooldown is running; one that has run out is forgotten |
| PstnBreaker.PstnFill.NoteFailure | src/modules/number-geography/pstn-fill.ts:111-125 | Cooldown, login block, strikes and network block after a failure |
| PstnBreaker.PstnFill.LookupOnce | src/modules/number-geography/pstn-fill.ts:161-176 | A request is refused, joins the chain of its phone, or starts one |
| PstnBreaker.PstnFill.BeginLookup | src/modules/number-geography/pstn-fill.ts:127-134 | A chain that gets its turn asks the breaker again, and settles or starts its lookup |
| PstnBreaker.PstnFill.LookupFilled | src/modules/number-geography/pstn-fill.ts:134-137 | A stored answer ends the strikes |
| PstnBreaker.PstnFill.Settled | src/modules/number-geography/pstn-fill.ts:169-173 | A settled chain leaves the table if it is still the one of its phone |
| PstnBreaker.PstnFill.LookupThrew | src/modules/number-geography/pstn-fill.ts:137-158 | A first attempt sleeps only on a short rate limit; any other failure is noted |
| PstnBreaker.PstnFill.AfterSleep | src/modules/number-geography/pstn-fill.ts:141-156 | The retry starts if and only if no block is running, else the first error is noted |
| PstnBreaker.OneChainPerPhone | src/modules/number-geography/pstn-fill.ts:161-176 | In every run no phone has two live lookup chains |
| PstnBreaker.LookupsRespectBreaker | src/modules/number-geography/pstn-fill.ts:90-159 | In every run with a nondecreasing clock no first lookup of a phone starts within five minutes of its failure, and no lookup or retry within ten minutes of a refused login or a minute of a third strike |
| PstnBreaker.RefusedIffForbidden | src/modules/number-geography/pstn-fill.ts:90-109 | A lookup is refused if and only if some failure in the history still forbids it |
| PstnBreaker.SleepsAreShort | src/modules/number-geography/pstn-fill.ts:138-141 | A chain only ever sleeps on a rate limit, for two seconds at most |
| PstnAnswer.FillNumberGeographyPstn | src/modules/number-geography/pstn-fill.ts:257-342 | Without credentials nothing is looked up; else one item per distinct id in first-seen order with its status, and counters that count them |
| PstnAnswer.AnswerAddsUp | src/modules/number-geography/pstn-fill.ts:308-342 | The four counters sum to the number of distinct ids, and items have distinct ids |
| PstnAnswer.EachMissingOnce | src/modules/number-geography/pstn-fill.ts:277-300 | Exactly the uncached phones of the request are looked up, each once |
| PstnAnswer.FirstSeenAre | src/modules/number-geography/pstn-fill.ts:261-261 | First-seen order: every member once, in the order in which members first occur |
| CsvSplit.SplitQuotedSemicolon | src/modules/enrich/parse-csv.ts:6-30 | The loop yields the split of the line |
| CsvSplit.SplitUndoesPrint | src/modules/enrich/parse-csv.ts:6-30 | Splitting undoes printing for every non-empty list of fields, each quoted as in section 2 of RFC 4180 or, where it needs no quotes, bare |
| CsvSplit.FieldCount | src/modules/enrich/parse-csv.ts:6-30 | Any line splits into one field more than it has semicolons outside quotes |
| Utf8.DecodeUndoesEncode | src/lib/utf8-truncate.ts:11-21 | Decoding undoes the encoding of section 3 of RFC 3629 |
| Utf8.ScalarsUndoUnits | src/lib/utf8-truncate.ts:7-21 | Reading code units undoes writing them |
| Utf8.Repairs | src/lib/utf8-truncate.ts:7-21 | Encoding and decoding a text changes exactly its lone surrogates, each to the replacement character |
| Utf8.TruncateUtf8 | src/lib/utf8-truncate.ts:5-22 | For any code units: nothing, the text itself, or its longest fitting prefix as decoded and the suffix |
| Utf8.BoundIff | src/lib/utf8-truncate.ts:1-22 | The result keeps the bound if and only if the bound is not positive, the text fits, or the bound has room for the 15-byte suffix |
| Utf8.ShortBoundOverruns | src/lib/utf8-truncate.ts:1-22 | Three letters under a bound of one byte come back as fifteen bytes |
| Utf8.KeepsTheMost | src/lib/utf8-truncate.ts:11-21 | With that room the kept part is the longest prefix of whole code points, lone surrogates replaced, that fits in maxBytes - 15 |
| Money.FormatMoney2 | src/lib/format-money.ts:6-33 | The text of the format's value, which the results below describe |
| Money.WithinHalfHundredth | src/lib/format-money.ts:22-28 | The number printed is within 1/200 of the exact value, a half going away from zero, for decimal texts of any length |
| Money.NearestIsUnique | src/lib/format-money.ts:22-28 | That determines the number printed |
| Money.OddInSign | src/lib/format-money.ts:11-32 | A minus sign before a cell prints as a minus sign before its text, and not at all if that is zero |
| Money.NoNegativeZero | src/lib/format-money.ts:32-32 | A minus sign is only printed before a number below zero |
| Money.Monotone | src/lib/format-money.ts:6-33 | A larger number is never printed as a smaller one |
| Money.Idempotent | src/lib/format-money.ts:6-33 | Formatting twice is formatting once, on every text |

## Left out

- Execution of SQL, Prisma, SSH, SOAP and HTTP: each statement is its effect on modelled state, and what a remote side answers is a parameter.
- Timestamps and error texts of the ingest state row, `applyTickStamp`'s writes, `parseStat`, and log lines: no result depends on them.
- Event counts, answers, delays and timeouts beside the concurrency series (`fillEventCounts`, `countsFromRows`, the chart caches): simpler siblings of the modelled path.
- Fractions of a millisecond, and durations or stamps that are not integers.
- Charts.ScanIsEnough: speaks of the classified records of one series; how a record is classified is not part of this model.
- DidProtocol: `syncDidSnapshot` is modelled on values, as statements that interleave, and not as one method; a failed release is a crash there.
- The shared provider label and SHA-256 are parameters (`labelOf`, `digestOf`). A label is cut after 200 characters, where the code counts UTF-16 code units and may leave half a pair.
- Strings outside `Utf8` are sequences of characters; an unpaired surrogate in a key, a cell or a name is not part of the model.
- `localeCompare` and database collations are replaced by one total order on strings (a parameter in `GeographyFacets`), and `lower` by ASCII case folding; no result uses more of the order than that it is total.
- Retries inside `drainOffsetPages` and `loadCatalogPage`: a page is what they finally return.
- GeographyPlans: what a label says of a number is a parameter, with at most one tariff row, one digit split and one cache row per number; the XLSX list is not modelled.
- GeographyPlans.ListNumberGeography: the refresh settings and the catalog stamp that come with the list are left out.
- Utf8.Decode: only meant for well-formed bytes, which is all the code decodes.
- Paging: rows are maps, and the parsing of replies, column discovery and the registration list's use of the same loop are not modelled.
- JobRuntime: the queue's concurrency of three, follow-up requests and timers, tariff back-off, sides refresh and inbox drains are not modelled; any of them only leads to one more enqueue.
- PstnBreaker: the queue's concurrency limit is not modelled; a queued chain may begin at any time.
- PstnAnswer.FillNumberGeographyPstn: the lookups of one request are their outcomes, not their interleaving, which `PstnBreaker` models.
- RateLimit: the clock does not go back, and times are whole milliseconds.
- Columns of a joined call that later steps fill, and the writing of headers.
- Components, labels, audit, redaction, authentication and command allow-lists.
