# Psygrid: verified models of its stateful and numerical cores

Psygrid follows an equity market minute by minute. Quote packets become one-minute candles, a
recorder accounts for every packet, an append-only stream and a daily archive carry the bars to an
intelligence layer, and that layer steps through the session, stores events, ranks, tests and
scores. This project models those pieces in Dafny and proves what a maintainer relies on when
reading any of them alone is not enough.

Numbers are `real` or `int`, a value that may be missing or not a number is an `Option`, and time is
an integer or a real read by the caller. Code that changes fields or loops over them is a class or a
method whose `ensures` ties it to a specification function; the theorems are about those functions
and about whole runs of them.

| theme | files |
|---|---|
| Event cooldown, restarts, the store and its cursor | `SessionClock`, `EventRules`, `EventOrder`, `EventRestart`, `EventRuns`, `EventLosses`, `EventReadBack`, `EventSpacing`, `EventCursor`, `EventService` |
| Equity and index candles | `OrderedRows`, `CandleRules`, `CandleRuns`, `CandleMerge`, `CandleHistory`, `CandleTicks`, `CandleState`, `IndexCandles` |
| Point-in-time frames and the day archive | `PointInTime`, `FrameMeaning`, `ArchiveRows`, `ArchiveCells`, `ArchiveDay`, `ArchivePayload` |
| Stream file, depth frames, recorder | `StreamText`, `StreamFile`, `StreamPrefix`, `StreamService`, `StreamTorn`, `DepthFrames`, `Recorder`, `RecorderLaws`, `RecorderSums`, `RecorderFlush` |
| Limiters | `TokenBucket`, `RequestSpacing` |
| Statistics and optimisation | `RealArithmetic`, `IndexSort`, `FalseDiscovery`, `Ranks`, `OptionChain`, `LagResponse`, `Levels`, `Indicators`, `Supertrend` |

## Where the code does less than it seems to promise

Each item names what the code's own comments, names or structure suggest, and the theorem that says
exactly when it holds.

- `intelligence/live.py:18` says a failed step is retried. A minute during which the store raises is indeed
  stepped again, but each due event enters the cooldown table before the store is asked about it
  (`intelligence/events.py:144-145`), and the retry fires exactly the due events that had not been entered
  (`EventLosses.RetryFiresTheRest`), none if the store raised only while adding them.
  `EventLosses.WhichEventsAreMissing` says, for every history of calls, failures anywhere in a minute, session
  switches and restarts, exactly which events are missing at its end: those that every pass over their minute
  either had entered in a failed attempt or held back, because the table it began with knew a firing of the
  same key that is no earlier and that nothing fired up to then outranks. `EventLosses.FailedMinuteIsLost` is
  one such day. After a restart with a working store, a lost event comes back if and only if the latest stored
  event of its key is not such a firing (`EventLosses.RestartRestores`).
- `intelligence/events.py:104-107` notes a new session before its cooldown table is read back. If that raises,
  the retry goes on with the table of the session before. The stored events are the same all the same as long
  as sessions are followed in calendar order (`EventReadBack.InOrderIsHarmless`): entries of earlier sessions
  are due again, and what is stored already is ignored. After a later session an event goes missing exactly if
  that session's firing of its key was no less severe (`EventReadBack.LaterTableHoldsBack`).
- `intelligence/pipeline945.py:59-83` is there to keep a decision from seeing what trades later, but it
  restricts equities only. Decision frames of days that agree on all closed bars are equal if and only
  if both days list the same indices, the days without any index included
  (`PointInTime.FrameHasNoLookAhead`, with `FirstIndexShows` and `LateIndexShows` as instances).
- `state.py:216-229` files a completed candle once. It is replaced later exactly when an open candle of
  the same, unofficially completed minute is closed over it (`CandleRuns.QuoteReplacesExactlyWhen`,
  `FinalizeReplacesExactlyWhen`), and over whole runs only after a merge brings its minute or a counted
  quote opens that minute again (`CandleRuns.CompletedCandlesKeep`). The latter can happen whenever no
  candle is open: after a merge dropped it (`CandleRuns.LateQuoteReplacesCandle`) or after
  finalisation. The index layer keeps the first candle instead (`IndexCandles.IndexInterleavingsKeep`).
- `option_analytics.py:143-153` looks for the cheapest settlement among the listed strikes. That is the
  cheapest of all prices if and only if both sides' total open interest is non-negative
  (`OptionChain.MaxPainOverAllPrices`).
- `intelligence/keys.py:128-129` forgets idle buckets. That is invisible if and only if
  `burst <= 600 * rate` (`TokenBucket.ForgettingIsInvisible`); the wait it returns to a denied caller is
  exact if and only if the burst is at least one (`TokenBucket.WaitIsExact`).
- `intelligence/stream.py:44-45` speaks of complete blocks. A cut file reads as a whole number of blocks
  if and only if the cut does not leave a marker behind without its whole minute, except where it leaves
  no digit and the block has no rows (`StreamService.ExactOutsideMinutes`).
- `intelligence/stream.py:5-8` says a reader never sees a half-written minute. A write that fails part way
  leaves a torn block, and the next minute is appended right behind it. For every
  such file, no part of torn blocks is read if and only if, up to the last marker, none of them has a whole
  line of its own left, every line glued to a tear reads as neither a row nor a minute, and the marker shows
  no minute if a tear leaves it (`StreamTorn.TornBlocksUnreadExactlyWhen`, `SilentExactlyWhen`). A tear within
  an end line shows a minute that was never finished (`StreamTorn.TornEndIsRead`), one within the first field of
  a row makes a row of an instrument that does not exist once a minute follows (`StreamTorn.TornFieldIsRead`),
  and a header torn behind its first field hides every row of the day while all its minutes are reported
  (`StreamTorn.TornHeaderHidesRows`).
- `intelligence/archive.py:218-223` calls a live and a replayed frame of the same data identical. A
  payload archived and loaded back equals the day built in memory if and only if it has a candle, no
  larger table is already counted for the day, and, on a day whose manifest was first written by the
  historical bootstrap, no minute's first valid row is a flat zero-volume bar: the live writer keeps the
  bootstrap's `source`, and the reader then drops such bars (`ArchiveDay.ArchivedDayIsLiveDay`).
- `psygrid_master_indicator.py:284-298` ratchets the Supertrend line. From the second bar of a spell on
  it does (`Supertrend.UpSpellRatchets`, `DownSpellRatchets`); from the first bar to the second it need
  not (`Supertrend.LineFallsFromFirstBar`: with period 10 and multiplier 3 it goes from 20 to -27).

## Model

| member | source | states |
|---|---|---|
| SessionClock.GridClosed | intelligence/frame.py:43-50 | every grid minute's bar has closed by the moment asked for, and minutes step by 60 s from 09:15 |
| SessionClock.GridGrows | intelligence/frame.py:43-50 | a later moment's grid is an extension at the end |
| SessionClock.LastBarOfGrid | intelligence/live.py:253-264 | stepping minute m of a session sees exactly m bars, the last one a minute old |
| EventRules.AddKeepsUnique | intelligence/event_store.py:75-98 | insert-or-ignore keeps ids unique, and every id offered is stored afterwards |
| EventRules.AddStored | intelligence/event_store.py:80-97 | events whose ids are all stored add nothing and are not reported as new |
| EventRules.AddFresh | intelligence/event_store.py:80-97 | events of distinct unknown ids are all added and all reported, in order |
| EventRules.FireOneKey | intelligence/events.py:118-144 | of one frame's candidates for a key only the first in order can fire, it fires exactly when it is due, and the table changes for that key accordingly |
| EventRules.HighestFires | intelligence/events.py:118-144 | an event that fires was due and no candidate of its key in the frame ranks above it; one fires exactly when any is due, and only one |
| EventRules.FireTabulates | intelligence/events.py:137-146 | the cooldown table after a frame is the one its fired events alone would write |
| EventRules.FireDistinctKeys | intelligence/events.py:137-146 | one frame never fires two events of one key |
| EventOrder.OrderedByGravity | intelligence/events.py:136-138 | candidates are considered each once, graver severities first, then greater magnitudes, then lower ids |
| EventOrder.FirstByGravityFires | intelligence/events.py:118-144 | of a key only a candidate that none precedes fires, and one that precedes all others does exactly if no firing of the key is known that is less than 15 minutes old and no less severe |
| EventRestart.RebuiltTable | intelligence/event_store.py:184-192 | the table rebuilt from a session's stored events equals the table the run that stored them ended with |
| EventRestart.RestepKey | intelligence/events.py:118-144 | stepping a minute again, also after attempts that entered some of its keys and failed, and with other sessions' entries in the table, each key's entry is the one the pass began with while that still waits and the uninterrupted run's otherwise, and the key fires exactly if the uninterrupted run fired it there, no failed attempt entered it and the pass does not hold it back |
| EventRestart.Restep | intelligence/events.py:122-149 | stepping a minute again fires exactly the uninterrupted run's events of that minute that the pass does not hold back and no failed attempt entered |
| EventRestart.PartlyEntered | intelligence/events.py:137-145 | an attempt that fails after its first k due events leaves exactly their keys moved on and every other key as it was |
| EventRestart.CaughtUp | intelligence/events.py:104-108 | once every firing the pass began with is in the past, its table is the uninterrupted run's, but for entries of earlier sessions |
| EventRestart.StaleIsIgnored | intelligence/events.py:118-120 | and those change nothing that fires |
| EventRestart.PassBegins | intelligence/live.py:247-257 | a pass begins at the open with every entry of its table still ahead, or of an earlier session, whether the table was kept, read back or left over |
| EventRuns.RestartConfluence | intelligence/live.py:247-264 | after any steps, stops, session switches and restarts, failures in other sessions, and tables that could not be read back while no later session had left an entry, a session's stored events are those of one uninterrupted run as far as was ever reached, ids unique, each event reported as new exactly once |
| EventRuns.SameAsOneUninterruptedRun | intelligence/live.py:247-264 | that history stores the same events as a single call without any restart |
| EventSpacing.KeySpacing | intelligence/events.py:118-120 | in an uninterrupted run the events of one key are 15 minutes apart or rise in severity, and the table holds the latest |
| EventSpacing.StoredPairSpacing | intelligence/events.py:118-120 | after any history, failures included, of two stored events of one key the later is 15 minutes later or more severe |
| EventSpacing.AtMostThreePerWindow | intelligence/events.py:104-149 | after any history four stored events of one key span at least 15 minutes |
| EventLosses.RetryFiresTheRest | intelligence/events.py:118-149 | the retry of a frame of which the first k due events had been entered fires exactly the other due events |
| EventLosses.WhichEventsAreStored | intelligence/event_store.py:75-98 | after any history the rows are exactly what some visit to a minute brought while the store took it, each once |
| EventLosses.WhichEventsAreMissing | intelligence/events.py:104-149 | exactly which events of the uninterrupted run are missing at the end of any history with failures at any point of a minute, switches and restarts: those every pass over their minute had entered in a failed attempt or held back |
| EventLosses.FailedMinuteIsLost | intelligence/events.py:144-148 | on a day whose store raises once at minute 1, the events of that minute that stay missing are exactly those entered before the raise |
| EventLosses.RestartRestores | intelligence/events.py:104-108 | stepping a session again after a restart stores an event exactly if it was stored or the latest stored event of its key does not hold it back |
| EventLosses.LostEventsComeBack | intelligence/event_store.py:184-192 | a lost event without a later stored firing of its key always comes back |
| EventReadBack.InOrderIsHarmless | intelligence/events.py:104-108 | while sessions are followed in order, in whatever processes, a failing read-back never costs a session anything |
| EventReadBack.LaterTableHoldsBack | intelligence/events.py:104-120 | on a day that follows a later session and whose table cannot be read back, an event of minute 1 goes missing exactly if the later session's firing of its key was no less severe |
| EventCursor.PageIsNextMatches | intelligence/event_store.py:147-157 | a page with `after_seq` is exactly the next matching rows up to the cursor it leaves, and a short page leaves none behind |
| EventCursor.PollingMissesNothing | intelligence/event_store.py:119-157 | pages polled while the store grows are together every match up to the cursor, none twice and none skipped |
| EventService.EventStore.Add | intelligence/event_store.py:75-98 | the rows grow by exactly the new events and exactly those are returned, or it raises and changes nothing |
| EventService.EventStore.ReadLastFired | intelligence/event_store.py:184-192 | the table read back is the one the session's rows, by bar time, tabulate to, or it raises |
| EventService.EventEngine.Build | intelligence/events.py:104-149 | the frame loop changes table and store exactly as the rules of one minute say; if the store raises, the rows stay, and the table is the one before if it was being read back, and otherwise has moved on by the events entered so far |
| EventService.LiveRunner.StepThrough | intelligence/live.py:258-264 | the stepping loop is the minute-by-minute composition from its start to where the limit, a stop or the store ends it |
| EventService.LiveRunner.FollowArchive | intelligence/live.py:213-275 | one call is one abstract follow step, or one cut off by a failed attempt, or nothing if the files are unchanged or unreadable; the file times are noted only if it ran to its end |
| CandleRules.FilingOne | state.py:216-229 | filing a candle keeps minutes strictly rising and changes one minute, official before websocket |
| CandleRules.MergeRowsKeeps | state.py:231-255 | merging history rows loses no minute and never turns an official one back |
| CandleMerge.MergeDecides | state.py:208-255 | after a merge stands, at every minute, the last official row brought for it, or else the official candle that stood there, or else the last row brought, or else what stood there |
| CandleMerge.LatestOfficialStands | state.py:208-328 | over whole runs a minute shows the last official row of the last merge that brought it one, whatever follows |
| CandleMerge.ClosingDecides | state.py:208-229 | closing the open candle files it at its minute unless an official one stands there, and changes no other minute |
| CandleMerge.CandleAtMinute | state.py:201-206 | the candle of a minute is the one whose epoch, or timestamp without an epoch, lies in it |
| CandleMerge.RestOfTheBook | state.py:231-261 | a merge drops the open candle exactly if its minute is completed now; merges, closings and seeds change nothing else of a book |
| CandleMerge.QuoteTaken | state.py:263-319 | which quotes change nothing, and that every other sets cumulative volume, latest trade and the open candle of its own minute |
| CandleMerge.DedupeDecides | output.py:62-73 | of the rows that can be served at a minute the last official one is served, or the last one if none is official |
| CandleRuns.InterleavingsKeep | state.py:208-328 | under every interleaving of quotes, merges, finalisations and seeds: strictly rising minutes, no covered minute lost, completed stays completed, official stays official |
| CandleRuns.CountedQuoteStaysCovered | state.py:263-328 | the minute of every quote that counts is covered from then on |
| CandleRuns.QuoteReplacesExactlyWhen | state.py:281-319 | a quote changes a completed candle exactly when it closes an open candle of that minute, not official there and different |
| CandleRuns.FinalizeReplacesExactlyWhen | state.py:321-328 | finalisation changes a completed candle exactly under the same condition |
| CandleRuns.CompletedCandlesKeep | state.py:208-328 | over whole runs a completed candle keeps its value unless a merge brings its minute or a counted quote opens it again |
| CandleRuns.RunsServeCompleted | state.py:208-328 | over every interleaving of quotes, merges of priced rows, finalisations and seeds, the served list is exactly the completed list |
| CandleHistory.SessionServesCompleted | output.py:62-101 | from an empty book the same holds for merges of any rows the history parser hands on |
| CandleHistory.CandlesFromArrays | dhan_api.py:181-218 | the parser lists exactly the rows whose six entries are numbers shaped like a bar, in order, each entry under its own name, official and complete; it raises on arrays of unequal lengths |
| CandleRuns.ServedIsCompleted | output.py:62-101 | for a book that also holds unpriced candles, what is served is the completed list without them |
| CandleRuns.LateQuoteReplacesCandle | state.py:252-254 | a concrete run in which a late quote after a merge replaces a completed candle |
| CandleTicks.CandlesGroupQuotes | state.py:263-328 | without merges the completed candles and the open one are the accepted quotes grouped by minute: first, highest, lowest, last price and the minute's volume |
| CandleTicks.BarExtremes | state.py:312-319 | a bar's high and low are attained and bound every accepted price of its minute |
| CandleTicks.MinutesExact | state.py:270-299 | candles exist for exactly the minutes some accepted quote falls in |
| CandleTicks.VolumeIsMoves | state.py:257-319 | total candle volume is the sum of upward moves of cumulative volume since the seed |
| CandleTicks.MovesTelescope | state.py:257-319 | that sum is last minus seed when cumulative volume never falls |
| CandleState.PsygridState.UpdateQuote | state.py:263-319 | one locked section changes one security's book by the quote rule and no other book |
| CandleState.PsygridState.AppendCompleted | state.py:216-229 | a completed candle is filed by the rule of precedence, other books untouched |
| CandleState.PsygridState.MergeTodayHistory | state.py:231-255 | a history merge changes one book as the merge rule says, invariant kept |
| CandleState.PsygridState.FinalizeCurrent | state.py:321-328 | every open candle is closed and filed |
| CandleState.PsygridState.SeedCumulativeVolume | state.py:257-261 | the seed of a known security is set, never below zero |
| CandleState.PsygridState.StockCandles | output.py:87-101 | what is served for a security is its completed, priced candles |
| CandleState.DedupeCandles | output.py:62-73 | the de-duplicating loop gives one candle a minute, in minute order, by the rule of precedence |
| IndexCandles.StoringOne | index_layer.py:230-241 | storing keeps timestamps strictly rising and never replaces a filed candle |
| IndexCandles.Merging | index_layer.py:251-257 | a merge replaces exactly the timestamps it brings, with its last row for each, and leaves the open candle |
| IndexCandles.IndexInterleavingsKeep | index_layer.py:187-265 | under every interleaving no covered timestamp is lost and a completed candle changes only through a merge that brings its timestamp |
| IndexCandles.IndexRunsLikeEquity | index_layer.py:187-241 | on quotes alone the index state equals the equity state seeded with cumulative volume 0 |
| IndexCandles.IndexCandlesGroupQuotes | index_layer.py:187-228 | so its candles are the accepted quotes grouped by minute and its volume all upward moves from 0 |
| IndexCandles.IndexState.UpdateQuote | index_layer.py:187-228 | one locked section changes the state by the index quote rule, only in a live session |
| IndexCandles.IndexState.StoreComplete | index_layer.py:230-241 | the scan, append and sort file the candle as the storing rule says |
| IndexCandles.IndexState.MergeToday1m | index_layer.py:251-257 | the merge loop files rows as the merge rule says, or changes nothing if a row has no time |
| PointInTime.AlignRow | intelligence/frame.py:53-74 | one row on the grid holds exactly the bars of the grid's minutes |
| PointInTime.Align | intelligence/frame.py:53-74 | aligned bars are the bars of the grid's minutes, with the rejections known by then |
| FrameMeaning.AlignedShows | intelligence/frame.py:53-74 | each cell has a bar exactly if the day has it for that instrument and minute, instruments and names kept |
| FrameMeaning.RejectionsShown | intelligence/frame.py:53-74 | exactly the rejections whose bar opened 60 s ago or earlier are shown, in their order |
| PointInTime.RestrictToUniverse | intelligence/pipeline945.py:59-83 | the equity block is re-keyed to the universe and every symbol with a bar, empty rows where there is no data |
| FrameMeaning.RestrictedShows | intelligence/pipeline945.py:59-83 | the universe and every symbol with a bar are listed in order, with the rejections they had, and no others |
| FrameMeaning.RestrictedRow | intelligence/pipeline945.py:59-83 | each has the row and the name it had, or an empty row under its own name |
| FrameMeaning.FrameShowsSetting | intelligence/frame.py:77-91 | equal decision frames come from days of one date, reference and origin |
| PointInTime.EquityHasNoLookAhead | intelligence/pipeline945.py:59-83 | days that agree on what had closed give the same equity block, even if one has symbols that first trade later |
| PointInTime.FrameHasNoLookAhead | intelligence/frame.py:77-91 | whole decision frames of such days are equal exactly if both days list the same indices |
| PointInTime.FirstIndexShows | intelligence/archive.py:248 | the first index of a day, trading after the decision, gives its frame an index block |
| PointInTime.LateIndexShows | intelligence/pipeline945.py:59-83 | so does one more index on a day that lists others |
| PointInTime.FramesGrow | intelligence/frame.py:53-91 | the frame at a moment is a column prefix of the frame at every later one and no known rejection is forgotten |
| ArchiveRows.ToBars | intelligence/archive.py:109-140 | the columnar bars are those of the row-by-row reading |
| ArchiveRows.FirstRowIsKept | intelligence/archive.py:118-130 | a cell holds a bar exactly when some row can fill it, and then the first such row's values |
| ArchiveCells.CellsByName | intelligence/archive.py:77-140 | a cell has a bar exactly if some row of its symbol and time has five numbers shaped like a bar and is no dropped filler, and then the five numbers of the first such row, each by its name |
| ArchiveCells.TableAxes | intelligence/archive.py:131-140 | the table lists every symbol named and every time of some bar, both rising |
| ArchiveCells.RejectionsByReason | intelligence/archive.py:77-130 | each symbol's rejections are its other rows in order, each with its time and its one of four reasons, and minutes without a trade are the dropped fillers |
| ArchiveRows.EachRowCountsOnce | intelligence/archive.py:118-130 | bars, rejections and no-trade minutes together count every row exactly once |
| ArchiveRows.BarsDetermine | intelligence/archive.py:131-140 | equal columnar bars mean equal cells, rejections and counts: the layout loses nothing |
| ArchiveRows.FillersShowExactlyWhen | intelligence/archive.py:103-130 | dropping flat zero-volume bars changes the result exactly if one is the first valid row of its minute |
| ArchiveDay.DayStaysHonest | daily_archive.py:90-107 | over any writes, each possibly cut short between file and manifest, the manifest never counts more rows than its file holds and its counts never fall |
| ArchiveDay.ReferenceRoundTrip | daily_archive.py:117-125 | the reference table written in symbol order reads back as the payload's reference |
| ArchivePayload.RowsOfPayload | daily_archive.py:109-126 | the equity table lists each stock's candles in their order, stocks by symbol, nothing else |
| ArchivePayload.RefRowsOfPayload | daily_archive.py:117-125 | the reference table lists every stock once, by symbol, with its two numbers |
| ArchivePayload.ReferenceOfPayload | intelligence/archive.py:218-251 | the in-memory day has each stock's two numbers and no other stock |
| ArchiveDay.ReferenceExactlyWhen | daily_archive.py:96-98 | the stored reference is the payload's exactly if no larger reference table was counted |
| ArchiveDay.EquityExactlyWhen | intelligence/archive.py:155-172 | loaded equity bars are the payload's exactly if the write was accepted and no filler is dropped |
| ArchiveDay.ArchivedDayIsLiveDay | intelligence/archive.py:218-251 | archive-then-load equals the day built in memory, equity, rejections and reference, exactly under the condition named above |
| ArchiveDay.FirstWriteReadsBack | daily_archive.py:109-126 | a first write of the day with a candle always reads back as the live day |
| ArchiveDay.DailyArchive.WriteEquity | daily_archive.py:109-126 | a payload without date, stocks or candles, or smaller than the archive, changes nothing; one with a missing stock fails; otherwise one day's tables are replaced |
| ArchiveDay.DailyArchive.LoadDay | intelligence/archive.py:155-172 | a day without an equity file is an error, otherwise its rows are read with fillers dropped on bootstrap days |
| ArchiveDay.DayFromPayloads | intelligence/archive.py:218-251 | the in-memory day is built from the payload's rows in symbol order, an error without a date |
| StreamFile.BodyLines | intelligence/stream.py:51-55 | the text handed to the reader is the lines up to the last marked one, whole or cut off |
| StreamPrefix.ReadEndLine | intelligence/stream.py:59-63 | an end line cut behind its marker still adds the minute its digits show |
| StreamPrefix.ReadBlocks | intelligence/stream.py:44-71 | a header and whole blocks read as their rows and minutes, in order |
| StreamPrefix.ReadOfPrefix | intelligence/stream.py:44-71 | any prefix of the file reads as the rows of exactly the blocks whose end marker is still visible, never part of one |
| StreamService.WholeFileRoundTrip | microstructure.py:414-426 | everything appended is read back |
| StreamService.ExactOutsideMinutes | intelligence/stream.py:51-71 | a cut file reads as a whole number of blocks exactly unless the cut spoils the minute of one |
| StreamService.NeverAheadOfRows | intelligence/stream.py:81-121 | a reported minute never runs ahead of the rows read, even if its digits were cut |
| StreamTorn.AppendGivesPiece | microstructure.py:414-426 | an append to a file of whole and torn blocks, however much of it is written, gives such a file again, and a write that does not fail adds a whole block |
| StreamTorn.ReadOfTornFile | intelligence/stream.py:44-71 | any file of whole and torn blocks reads as the sum of its pieces up to the last marker, each giving its whole lines, the first glued to what an earlier tear left, and the minute that marker shows if a tear leaves it, glued or unfinished |
| StreamTorn.TornBlocksUnreadExactlyWhen | intelligence/stream.py:44-71 | for any such file the whole blocks' own rows and minutes are read, and nothing else if and only if, up to the last marker, no torn block has a whole line left but one glued to an earlier tear, every glued line is silent, and a marker left by a tear shows no minute |
| StreamTorn.SilentExactlyWhen | intelligence/stream.py:58-70 | a line glued to a tear is silent exactly if its fields are not as many as the header's, or it is the header, or it begins like an end line and shows no minute |
| StreamTorn.TornFieldMakesRow | intelligence/stream.py:58-70 | glued to a row a tear is silent exactly if it reaches behind the first field, and otherwise the two are read as one row |
| StreamTorn.TornEndIsRead | intelligence/stream.py:51-63 | an end line torn behind its marker adds the minute its digits still show, though the block was never finished |
| StreamTorn.TornFieldIsRead | intelligence/stream.py:44-71 | a minute torn in its first field and then a whole minute read as rows that begin with one nobody wrote |
| StreamTorn.TornHeaderHidesRows | microstructure.py:422-426 | blocks behind a header torn after its first field give all their minutes and none of their rows |
| StreamService.AppendGrows | microstructure.py:414-426 | appending one block extends the file by that block's lines |
| StreamService.MergeStream | intelligence/stream.py:88-104 | the day's rows are the archived rows and then the stream rows of minutes they lack |
| StreamService.MergeCovers | intelligence/stream.py:88-104 | an instrument and minute is in the merge exactly if either source has it |
| StreamService.ArchiveWins | intelligence/stream.py:88-104 | the stream never repeats an archived minute and adds each minute at most once |
| StreamService.MergeShows | intelligence/stream.py:88-104 | for each instrument and minute the merge shows the archive's bar, or else the stream's first |
| StreamService.StreamLog.AppendBlock | microstructure.py:414-426 | one write adds the header to a new file, then the rows and the end line, or as many of those characters as the disk takes before it raises |
| StreamService.StreamLog.ReadBlocks | intelligence/stream.py:44-71 | the reading loop gives the rows and minutes of the line-by-line reading |
| DepthFrames.ParseDepthMessage | index_depth.py:246-267 | for every byte string the loop ends, stays in bounds and returns the frames at its front |
| DepthFrames.ParseDistributes | index_depth.py:246-267 | parsing distributes over the concatenation of whole frames, whatever follows |
| DepthFrames.TruncatedStream | index_depth.py:246-267 | whole frames and the beginning of another give exactly the whole frames' messages |
| DepthFrames.PrefixParsesToPrefix | index_depth.py:246-267 | what is parsed from a prefix of any bytes is a prefix of what is parsed from all of them |
| DepthFrames.SendThenParse | index_depth.py:246-267 | a bid or ask packet as laid out on the wire parses back to its message |
| DepthFrames.WireBytes | index_depth.py:246-267 | that packet byte by byte: length, code 41 or 51, security id, and twenty levels of price, quantity and orders, low bytes first |
| DepthFrames.SentStreamArrives | index_depth.py:246-267 | a stream of such packets and other frames, cut anywhere in the last, arrives in order |
| Recorder.MicrostructureRecorder.ObservePacket | microstructure.py:220-336 | a packet changes the bucket of its stock and receive minute and the stock's last state, nothing else |
| Recorder.MicrostructureRecorder.FlushClosed | microstructure.py:390-412 | closed minutes leave oldest first, and the statistics count every one by its fate: written, dropped or lost to a write error |
| RecorderFlush.FlushMovesWhatIsOver | microstructure.py:390-412 | exactly the minutes that ended three seconds ago leave, oldest first, rows unchanged, each dropped, failed or written by its age and the disk |
| RecorderLaws.BucketsStayBalanced | microstructure.py:220-336 | in every bucket, always: buy, sell and unclassified add up to volume, valid and invalid books to packets |
| RecorderSums.FiguresAreSums | microstructure.py:220-336 | after any history each figure of a stock and minute, flushed or pending, is the sum of what the stock's packets received in that minute add, each judged by the packets before it alone |
| RecorderSums.BoughtAndSold | microstructure.py:312-326 | bought, sold and unclassified volume are the upward volume moves priced above, below or at the middle of the latest valid book, there or without one against the latest price |
| RecorderLaws.VolumeConserved | microstructure.py:280-336 | a stock's bucket volumes add up to its highest cumulative volume minus its first, wherever minutes and flushes fall |
| RecorderLaws.QuantitiesTelescope | microstructure.py:240-278 | while best prices stand still, replenishment less depletion and order-flow imbalance telescope to quantity changes |
| RecorderLaws.MinutesFlushInOrder | microstructure.py:390-412 | with a clock that never runs back each minute is flushed at most once and in rising order |
| TokenBucket.WindowBound | intelligence/keys.py:117-131 | between any two checks of a key at most the burst plus what time earns is allowed, each check at its own rate |
| TokenBucket.EarnedAtMost | intelligence/keys.py:119 | which is at most rate * elapsed for the highest of those rates |
| TokenBucket.ManyKeysBound | intelligence/keys.py:117-131 | the same bound for one key of a limiter that serves many and forgets idle ones |
| TokenBucket.WaitIsExact | intelligence/keys.py:122-131 | the next check of a denied key is allowed exactly from the returned wait on, for a burst of at least one |
| TokenBucket.RemainingIsExact | intelligence/keys.py:117-131 | the tokens a check reports are exactly how many more checks are allowed at that instant |
| TokenBucket.FirstBurst | intelligence/keys.py:118-122 | a key met for the first time may ask its whole burst at once and no more |
| TokenBucket.ForgettingIsInvisible | intelligence/keys.py:128-129 | an idle bucket can never be told from a forgotten one exactly if burst <= 600 * rate |
| TokenBucket.IdleAreForgotten | intelligence/keys.py:128-129 | beyond ten thousand keys exactly those idle for ten minutes are forgotten |
| TokenBucket.ForgettingChangesNothing | intelligence/keys.py:117-131 | under that bound a limiter that forgets gives every run the answers of one that never does |
| TokenBucket.KeysAreIndependent | intelligence/keys.py:117-131 | a key gets the answers it would get alone |
| TokenBucket.RateLimiter.CheckKey | intelligence/keys.py:117-131 | one check answers and updates by the bucket rule, then forgets idle keys if there are too many |
| RequestSpacing.GrantsRespect | intelligence/history_bootstrap.py:180-189 | under any interleaving grants are one interval apart, never before asking and never before an earlier cool-down ends |
| RequestSpacing.GrantsAreEarliest | intelligence/history_bootstrap.py:180-189 | no schedule with those guarantees lets any caller go earlier |
| RequestSpacing.GrantsPerWindow | intelligence/history_bootstrap.py:170-185 | a window of length w holds at most w / interval + 1 grants |
| RequestSpacing.StampsAreThrottled | dhan_api.py:52-68 | however long sleeps overrun, every post is its own interval after every earlier one and after every earlier cool-down |
| RequestSpacing.StampsAreEarliest | dhan_api.py:52-68 | with punctual sleeps no schedule with those guarantees is earlier |
| RequestSpacing.StampsPerWindow | dhan_api.py:52-61 | a window holds at most its length over the least interval asked for, plus one |
| RequestSpacing.RateLimiter.AcquireAt | intelligence/history_bootstrap.py:180-185 | the caller sleeps until its grant, and the next slot moves one interval on |
| RequestSpacing.RateLimiter.CoolDownFor | intelligence/history_bootstrap.py:187-189 | a cool-down only ever moves the next slot later |
| RequestSpacing.PostThrottle.ThrottlePost | dhan_api.py:52-61 | a post waits out interval and cool-down under the lock; one without an interval passes and leaves no mark |
| RequestSpacing.PostThrottle.SetRateCooldown | dhan_api.py:63-68 | a positive cool-down only ever extends the current one |
| FalseDiscovery.BenjaminiHochberg | intelligence/evaluation.py:78-89 | the passed set is self-consistent, the greatest such set at every level for numbers that are not negative, and for any numbers whenever there is one |
| FalseDiscovery.ConsistentByCounting | intelligence/evaluation.py:78-89 | a set is self-consistent if the number of p-values times each member is at most the set's size times the level |
| FalseDiscovery.RejectionsAreDownwardClosed | intelligence/evaluation.py:78-89 | a p-value no larger than a passed one passes, so ties never split |
| FalseDiscovery.InputOrderDoesNotMatter | intelligence/evaluation.py:78-89 | permuting the p-values permutes the verdicts |
| FalseDiscovery.GreatestIsUnique | intelligence/evaluation.py:78-89 | there is only one greatest set, so tie order in the sort is irrelevant |
| Ranks.AverageRanks | intelligence/matrix.py:187-199 | sort-based ranks equal the counting definition |
| Ranks.RanksAddUp | intelligence/matrix.py:187-199 | n ranks sum to n(n+1)/2 whatever the ties |
| Ranks.PctRank | intelligence/matrix.py:202-208 | cells that are no numbers get none; the others' percentile ranks lie strictly within 0 and 1 and equal the counting percentile |
| Ranks.Separation | intelligence/similarity.py:242-249 | among the outcomes that are numbers, the separation times the number of pairs is the wins plus half the ties |
| Ranks.SeparationFromRanks | intelligence/similarity.py:242-249 | wins are the pooled rank sum less its least possible value |
| Ranks.SeparationComplements | intelligence/similarity.py:242-249 | swapping the samples complements the separation |
| OptionChain.StrikesSumToTotal | option_analytics.py:62-98 | per-strike open interest adds up to the reported totals |
| OptionChain.TotalsBySide | option_analytics.py:62-98 | the call total adds up the `ce` quantities of all rows with a strike, the put total the `pe` quantities |
| OptionChain.StrikesBySide | option_analytics.py:62-98 | at each strike stand the `ce` and the `pe` quantities of exactly the rows of that strike |
| OptionChain.PayoutByRows | option_analytics.py:146-151 | the payout is what the rows' calls pay above their strikes and their puts below them |
| OptionChain.PayoutLine | option_analytics.py:146-151 | between neighbouring strikes the payout is a straight line |
| OptionChain.MaxPainOverAllPrices | option_analytics.py:143-153 | the cheapest strike is cheapest over every real settlement price exactly if neither total is negative |
| OptionChain.NearestStrike | option_analytics.py:139-141 | the at-the-money strike is nearest, the lower of two at one distance |
| OptionChain.MaxPain | option_analytics.py:143-153 | the max-pain strike is the lowest of those with the least payout |
| OptionChain.ComputeChain | option_analytics.py:62-153 | in terms of the rows: totals, strikes, at-the-money strike, and the lowest strike at which the rows pay least, cheapest of all prices exactly if neither total is negative |
| LagResponse.SubtractOwn | intelligence/response.py:119-128 | group sums less a member's own part are the sums over the other members |
| LagResponse.SectorFactor | intelligence/response.py:115-129 | every grouped stock gets the direct mean over its peers with data, every other stock nothing |
| LagResponse.MeanIsShared | intelligence/response.py:115-129 | a mean over peers is the sum of their returns in excess of the market, each held within 5 %, shared by those with a bar |
| LagResponse.TermsAreExpected | intelligence/response.py:422-427 | the pending terms of one minute ahead are its expected return when no factor moves again |
| LagResponse.Pending | intelligence/response.py:421-427 | the pending loop sums the lag model's expected returns over the next five minutes with all future factor moves zero |
| LagResponse.PendingByAge | intelligence/response.py:421-427 | what is pending is, for each of the latest five moves of either factor, its size times the betas of all lags it has not reached yet |
| Levels.Swings | levels.py:66-78 | exactly the strict extremes of their window are listed, oldest first |
| Levels.SwingsKeepApart | levels.py:66-78 | two swing highs, or two lows, are more than `side` bars apart |
| Levels.ClusterPoints | levels.py:81-93 | clusters are contiguous runs of the sorted points, each with its count, sum, mean and latest index, grown greedily |
| Levels.RunsByPercent | levels.py:84-92 | each later point of a run is within merge_pct percent of the mean before it, the next run's first is not |
| Levels.MeanInRun | levels.py:88-91 | a cluster's price lies within its run |
| Levels.ClustersKeepApart | levels.py:81-93 | neighbouring clusters end up more than merge_pct percent apart |
| Levels.TiesStayTogether | levels.py:84-92 | points of one price never land in two clusters |
| Levels.RunsAgree | levels.py:81-93 | the greedy rule determines the runs completely |
| Indicators.EmaSmaSeed | psygrid_master_indicator.py:145-160 | the mean of the first p values at bar p - 1, and from then on (p + 1) times each move of the average is twice the new value's distance from it; nothing once a value is missing |
| Indicators.EmaClosedForm | psygrid_master_indicator.py:145-160 | the average is the mean of the first p values shrunk by (p - 1) / (p + 1) a bar plus the later values, each weighted the less the older it is |
| Indicators.WeightsAreWhole | psygrid_master_indicator.py:145-160 | those weights add up to 1 |
| Indicators.WilderRma | psygrid_master_indicator.py:163-175 | the same mean, and p times each move is the new value's distance |
| Indicators.DefinedExactlyWhen | psygrid_master_indicator.py:145-175 | an average is defined exactly once p values are there and none has ever been missing |
| Indicators.AverageWithinRange | psygrid_master_indicator.py:145-175 | an average stays within the range of the values seen so far |
| Indicators.AverageIsCausal | psygrid_master_indicator.py:145-175 | later bars never change an earlier average |
| Indicators.RsiWilder | psygrid_master_indicator.py:190-202 | from the second bar on RSI times smoothed rises and falls together is 100 times the smoothed rises, and 50 if there were neither |
| Indicators.RsiInRange | psygrid_master_indicator.py:190-202 | RSI lies in 0..100 and is defined exactly from bar p on while no close is missing |
| Indicators.RsiMirrors | psygrid_master_indicator.py:190-202 | turning prices upside down turns RSI r into 100 - r |
| Supertrend.ComputeSupertrend | psygrid_master_indicator.py:269-299 | the loop traces bands, direction and line from the first known range on |
| Supertrend.TrendByBars | psygrid_master_indicator.py:269-299 | bands, direction and line of each bar from the bars and the average true range |
| Supertrend.RangeAverages | psygrid_master_indicator.py:163-187 | that average starts as the mean of the first p true ranges and moves a p-th of the way to each later one |
| Supertrend.RangeCovers | psygrid_master_indicator.py:178-187 | a true range is the greatest of the bar's spread and its ends' distances from the close before |
| Supertrend.LineNeverFalls | psygrid_master_indicator.py:284-298 | through three up bars the line never falls |
| Supertrend.LineNeverRises | psygrid_master_indicator.py:284-298 | through three down bars it never rises |
| Supertrend.UpSpellRatchets | psygrid_master_indicator.py:284-298 | from the second bar of an up spell on the line never falls and every close holds every level it has had |
| Supertrend.DownSpellRatchets | psygrid_master_indicator.py:284-298 | the mirror for a down spell |
| Supertrend.LineFallsFromFirstBar | psygrid_master_indicator.py:288-298 | from the first bar to the second it can fall |
| Supertrend.TrendIsCausal | psygrid_master_indicator.py:269-299 | later bars never change an earlier trend |

## Left out

- Event ids: the 64-bit prefix of a SHA-256 digest is a number that depends on key and bar time only; runs in which two different candidate events share an id are outside the model.
- Event contents other than key, severity, magnitude order and bar time: payload, novelty count, affected instruments, publishing.
- `severity` banding and the building of candidates from features: a frame's candidates are a parameter, the same each time a minute is stepped.
- EventService.LiveRunner.FollowArchive: which day directories qualify and what the files cover is a parameter of the call; at most one minute of a call fails, since the first failure ends it.
- EventService.EventEngine.Build: the caching of prior occurrences, so a raise may happen at any due event.
- EventRuns.RestartConfluence: a process that dies between a commit and the following table update is the same as a restart after it; other partial commits of one `add` transaction do not exist in SQLite.
- Locks and threads: each locked section is one atomic step; thread start, stop and joins are not modelled.
- SQLite, CSV quoting, gzip, JSON, text encoding and float formatting: a value written is assumed to read back equal; stream fields are plain text without quotes or carriage returns.
- Floating-point rounding: prices, ranks, averages and times are real numbers.
- PointInTime.Align: the five fields of a cell are present or missing together, as the reader produces them; symbols are numbers in their sort order.
- PointInTime.FrameHasNoLookAhead: the reference values are taken as known at the open.
- CandleHistory.CandlesFromArrays: a response whose arrays are not lists, which gives no candles; numbers that are infinite or no numbers.
- CandleState.PsygridState.UpdateQuote: feed counters, last-quote times and the market reference beside the candles.
- IndexCandles.IndexState.MergeToday1m: other time frames kept by `merge_history`.
- StreamService.MergeStream: equity and index rows are merged by the same loop; the model has one table, keyed by instrument and minute.
- StreamTorn.TornHeaderHidesRows: a header torn within its first field, after which the rows are read under a wrong header.
- Recorder.MicrostructureRecorder.ObservePacket: spread, gap, latency and midpoint sums of a bucket; buckets are values in a dictionary, not shared objects.
- Recorder.MicrostructureRecorder.FlushClosed: raw packet dumps and compaction; whether the disk has space and takes a minute is a parameter.
- OptionChain.ComputeChain: volume totals, ratios, buildup classification, the snapshot tracker, and resistance and support lists.
- LagResponse.Pending: one stock at a time, as the arrays do elementwise; fitting of coefficients is linear algebra and left out, and factors are the inputs.
- Levels.ClusterPoints: the ranking of clusters by touches and the option and pivot levels.
- Supertrend.ComputeSupertrend: bars whose prices are not numbers; bars reach it already validated.
- ArchiveDay.ArchivedDayIsLiveDay: index tables, and a payload with a missing stock, which the writer refuses with an error while the reader in memory treats it as empty.
- ArchiveDay.DailyArchive.LoadDay: the index table of the day.
- ArchiveDay.DayFromPayloads: index snapshots, among them stale ones of another day.
- ArchiveRows.ToBars: the nested dictionaries per symbol are one dictionary by symbol and minute; instrument names equal their symbols, as in equity tables.
- RequestSpacing.GrantsRespect: grants are when a caller may go; a caller that oversleeps sends later than its grant.
- Closest-session matching, forward residuals, market-state classification, contract selection and request spans: short code whose properties would be easier than those above.
- ADX: its first averages are undefined, and `wilder_rma` then leaves every later one undefined (`Indicators.DefinedExactlyWhen`).
- HTTP, WebSocket and command-line front ends, token handling, watchdogs.
