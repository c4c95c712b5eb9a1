# LumenRoute: streaming relay and capture pipeline

LumenRoute is a gateway in front of OpenAI-compatible model providers. This project models the parts of it that carry
state and invariants, and proves what they promise.

* **Streams.** `Lines`, `SseStream`, `SseScanner`, `StreamProxy`: the scanner that turns arbitrary reads into event
  lines, the relay that passes them on, and the response put together from them for the capture. The scanner is a
  class with the source's fields; its buffer is an array, and a queued line is either a part of that array or memory
  of its own, so that overwriting a queued line would show. The format is the subset of server-sent events (sections
  9.2.5 and 9.2.6 of the WHATWG HTML Standard) that the scanner knows: line feeds only, exactly `data: `, one line per
  event. No conformance to that standard is claimed.
* **Capture.** `CaptureEntry`, `CaptureDisk`, `FilePool`, `CaptureWriter`, `Projects`, `CapturePipeline`: one step
  system for the producers, the bounded channel, the consumer, the file-handle pool, the index, the projects with
  their retentions, the cleaner and the clock, with every answer of the operating system and the database as part of a
  step's label. Records are stamped by its clock, and a cutoff is its clock less the retention of a listed project.
  `PipelineFlow`, `PipelineFiles`, `PipelineGuarantees` and `PipelineReferences` prove its invariants over every run,
  `RecordTimes` when records are stamped, `RecordRetention` at what age they go, `PipelineRetention` which files and
  records no run ever removes, and `CaptureScenarios` gives runs in which promises fail. `CaptureFiles`,
  `CaptureService`, `CaptureCleanup` and `ProjectHandlers` are the source's objects, updated in place. `Valid()` of
  the service says that the steps recorded in `trace` lead the step system from its start to a state that the object's
  fields agree with, so every theorem about runs is one about the object; each method also says which steps it adds to
  `trace`, and these determine the new state.
* **Index, list, export.** `Calendar`, `CaptureStore`, `CapturePaging`, `CaptureExport`, `CaptureReader`: the index as
  an ordered table, its queries with the text comparison of timestamps, the cursor of the list, the export loop, and
  reading a stored line back from its file. `CleanupRules` says which records and files a cleanup takes.
* **Smaller cores.** `ProjectCache` (a cache of limited lifetime raced by updates), `TargetSelection` (weighted
  choice) and `Percentile` (latency percentiles on truncated rows).

How the model stands to the code:

* A `char` stands for a byte. JSON is a tree; its text is left to a codec of which `Lawful` says that printed values
  parse back, contain no line feed, do not end in a carriage return, and that the empty text is not JSON; strings are
  thus taken to be valid UTF-8, which the encoder would otherwise replace, and trees to be nested no deeper than the
  decoder's 10000 levels. The two JSON readers of a stream chunk and the token counter are parameters, as are clocks,
  random numbers and all answers of the operating system and the database.
* A capture file's path is its project and the hour of the server's clock, which is a fixed offset from UTC and does
  not run backwards. One write takes place at one moment, and so does working out a cutoff and selecting by it.
* Faults are not excluded but recorded: `syncFailed`, `countFailed` and `flushLate` say whether a sync failed, a count
  query was not answered, or a batch waited for an hour, and nothing else (`PipelineGuarantees.FlagsAreFaults`).
  Durability needs the first to be false, the presence of referenced files (`Trusted`) the other two.
* The code departs from what its interface suggests in several places. The model follows the code, says exactly when
  the promise holds, and gives an input at which it does not:
  * a body that is not JSON, any such body, leaves an empty line (`CaptureEntry.ExportOfEntry`);
  * `since` and `until` compare UTC days, `since` leaving out its own day (`CaptureStore.ConditionsMean`,
    `CaptureStore.SinceLeavesOutItsDay`);
  * a read of no bytes inside a line breaks the line (`SseStream.ZeroReadHarmlessIffDone`,
    `SseStream.ZeroReadSplitsLine`);
  * a download never ends when it meets a page of unreadable records, which those without their file and those with
    lines over 2 MiB are (`CaptureExport.DownloadEndsIffNoGap`, `CaptureReader.DownloadEndsIffNoUnreadableGap`,
    `CaptureScenarios.LongLineNeverEnds`);
  * `has_more` is set on every page, the last one included (`CaptureExport.MoreIsRightIff`,
    `CaptureExport.NoMoreOnLastPage`);
  * the cleaner drops a file for good when its project still has some record, so that the file outlives the retention
    (`PipelineRetention.StaysIffStranded`, `PipelineRetention.StaysIfAnsweredIffStranded`,
    `CaptureScenarios.FileOutlivesRetention`);
  * a deleted project is not listed any more, so that its records and files stay for ever
    (`PipelineRetention.RecordStaysIff`, `PipelineRetention.StaysIffStranded`,
    `CaptureScenarios.DeletedProjectStays`);
  * the nanoseconds of a retention of more than 106751 days overflow, and with 213503 days no record is kept at all
    (`Projects.ShiftIsDays`, `CleanupRules.LongRetentionKeepsNothing`);
  * an unanswered count query lets the cleaner remove a file still referred to (`PipelineGuarantees.CountDecides`,
    `CaptureScenarios.UnansweredCountDangles`);
  * an invalidation does not stop a fetch that began before the update (`ProjectCache.InvalidationHoldsIffNoOldFetch`,
    `ProjectCache.OldValueComesBack`).
* Lemmas carry `{:induction false}`: every induction is written out in the proof.

`dafny verify dfyconfig.toml` checks the whole project.

## Model

| member | source | states |
|---|---|---|
| Lines.JoinSplit | internal/proxy/stream.go:105 | Splitting at line feeds loses nothing: joining the pieces with line feeds gives the bytes back |
| Lines.SplitPiecesLfFree | internal/proxy/stream.go:105 | No piece contains a line feed |
| Lines.SplitJoin | internal/proxy/stream.go:105 | Pieces without line feeds come back from splitting their join, so the splitting is the only one |
| Lines.SplitConcat | internal/proxy/stream.go:101-110 | Splitting two parts one after the other, carrying the open line over, gives the pieces of the whole |
| SseStream.EventLine | internal/proxy/stream.go:64-66 | An event line starts with the six bytes `data: ` and its payload is what follows them; the done line is `data: [DONE]`, byte by byte |
| SseStream.DeliverIsDataBeforeDone | internal/proxy/stream.go:61-89 | Walking through the lines hands out exactly the `data: ` lines before the first line with the bytes `data: [DONE]`, and completes if and only if there is one |
| SseStream.ReadLinesOutcome | internal/proxy/stream.go:58-123 | For every sequence of reads whatever, empty and failing ones included, what is handed out is what the stated effective byte stream carries |
| SseStream.ChunkingIndependence | internal/proxy/stream.go:58-123 | When no read is empty or fails before the last bytes have come, lines and completion depend on the bytes alone, not on how the reads cut them up |
| SseStream.DoneEndsStream | internal/proxy/stream.go:64-69 | For every payload but `[DONE]` and whatever follows: an event with that payload and then `data: [DONE]` hand out the first and complete the stream |
| SseStream.ZeroReadOutcome | internal/proxy/stream.go:92-99 | A read of no bytes ends the open line early, and the whole stream when no line is open |
| SseStream.ZeroReadHarmlessIffDone | internal/proxy/stream.go:92-99 | Such a read is harmless, whatever follows, if and only if a full line `data: [DONE]` went by before |
| SseStream.ZeroReadSplitsLine | internal/proxy/stream.go:92-99 | A stream it falsifies: `data: ab` cut after `a` by such a read comes out as `data: a` |
| SseScanner.Reader.Read | internal/proxy/stream.go:91 | A read puts the next bytes of the script at the front of the buffer and reports its error; after the script there is nothing but the end |
| SseScanner.Scanner.constructor | internal/proxy/stream.go:50-56 | A new scanner's upcoming outcome is that of its reader's reads |
| SseScanner.Scanner.Scan | internal/proxy/stream.go:58-123 | Each call takes the head off the upcoming lines, folds its metadata and times the first delta; it ends exactly when none is left, completed if and only if the line `data: [DONE]` ended it. It terminates |
| SseScanner.Scanner.Accept | internal/proxy/stream.go:70-86 | A handed-out line sets delta, identifier, model, finish reason and time of the first chunk as the fold of metadata says |
| SseScanner.Scanner.Fill | internal/proxy/stream.go:91-121 | One read, with nothing queued that it could overwrite, keeps the upcoming lines and makes progress, or the stream is at its end |
| SseScanner.Scanner.TakeBytes | internal/proxy/stream.go:100-121 | Bytes read join the carried line, and their complete lines are queued; with an error something is always queued, so the return after it is never reached |
| SseScanner.Scanner.Enqueue | internal/proxy/stream.go:105-111 | The queued slices of the buffer hold the complete lines, and the open one is copied out of the buffer |
| SseScanner.SplitRangeContents | internal/proxy/stream.go:105 | Splitting a part of the buffer gives parts of the buffer whose contents are the pieces |
| SseScanner.NamedByFirst | internal/proxy/stream.go:73-78 | Identifier and model come together from the first chunk that carries either |
| SseScanner.NeverNamed | internal/proxy/stream.go:73-78 | Without such a chunk both stay empty |
| SseScanner.FinishIsLast | internal/proxy/stream.go:79-81 | The finish reason is the last one that is not empty |
| StreamProxy.Relay | internal/proxy/service.go:321-335 | The relay writes exactly the rendering of the scanner's outcome and collects exactly its deltas |
| StreamProxy.RenderedText | internal/proxy/service.go:323-335 | The text relayed, byte by byte: each event line with two line feeds after it and, if and only if the stream completed, `data: [DONE]` and two line feeds at the end |
| StreamProxy.RenderRoundTrip | internal/proxy/service.go:321-335 | Scanning what was relayed gives back the lines and the completion it was printed from |
| StreamProxy.RelayHops | internal/proxy/service.go:321-335 | Any number of relays in a row hand out what the upstream sent, and from the first on no byte changes |
| StreamProxy.ProxyStream | internal/proxy/service.go:321-396 | Relay, stream result with its error for a missing `[DONE]`, token counts and captured entry, all as functions of the outcome; the rows below say what these hold |
| StreamProxy.ResultCounts | internal/proxy/service.go:348-358 | Each of the three counts of the result is the one counted under its own name, 0 where none was |
| StreamProxy.ResultFields | internal/proxy/service.go:337-347 | Times, status and text are those given; the error `upstream_eof` with its message stands there if and only if the stream did not complete |
| StreamProxy.StreamEntryFields | internal/proxy/service.go:372-394 | Each field of the captured entry is the request's or the result's of the same name; token counts only when positive; the client's body, not the upstream's |
| StreamProxy.CapturedUsage | internal/proxy/reconstruct.go:43-52 | From the counts given: the captured response parses back to an object that has `usage` if and only if the total is positive, with prompt, completion and total under their own keys |
| StreamProxy.ReconstructedFields | internal/proxy/reconstruct.go:29-49 | The response has exactly the keys of a chat completion, its object type, one choice, and `usage` with the three counts if and only if the total is positive |
| StreamProxy.ReconstructedNames | internal/proxy/reconstruct.go:13-27 | Identifier, model and finish reason of the response with their fallbacks: the fresh identifier, the string under `model` of the client's request or the empty one, and `stop` |
| StreamProxy.ReconstructedChoice | internal/proxy/reconstruct.go:33-40 | The choice has index 0 and a message whose role is `assistant` and whose content is the text |
| StreamProxy.CompletionOfReconstructed | internal/proxy/reconstruct.go:29-41 | The exporter finds the streamed text in the reconstructed response |
| StreamProxy.ReconstructedHeader | internal/proxy/reconstruct.go:12-27 | Identifier and model of the response are those of the first chunk naming either, with their fallbacks when it names one of them or no chunk names any; the finish reason is the last given, or the default |
| StreamProxy.StreamToExport | internal/api/capture_handlers.go:262-315 | The export of a captured stream has as its completion all deltas before `[DONE]`, however the stream was cut into reads, next to the field `messages` of the client's request, or the request itself when it is no object with that field |
| CaptureEntry.ExportOfEntry | internal/api/capture_handlers.go:262-315 | The `openai` export of an entry's line, exactly: the request's field `messages`, the content of the first choice's message and the model, a body itself when it has no such part; an empty line when a body is not JSON |
| CaptureEntry.LineOfEntry | internal/capture/writer.go:79-103 | A stored line parses back to the object of the next rows, with null for a missing body; it is empty when a body is not JSON |
| CaptureEntry.LineKeys | internal/capture/types.go:46-64 | A line has exactly the sixteen keys, and `stream_completed` if and only if the entry was streamed |
| CaptureEntry.LineOrigin | internal/capture/writer.go:80-98 | Request, project, time of capture and the schema version 1 under their keys |
| CaptureEntry.LineRoute | internal/capture/writer.go:83-86 | Route, public model, upstream model and provider under their keys |
| CaptureEntry.LineValues | internal/capture/writer.go:87-101 | Stream flag, completion, status, latency and the two bodies under their keys |
| CaptureEntry.LineCounts | internal/capture/writer.go:90-92 | Time to the first chunk and both token counts under their keys, null where there is none |
| CaptureEntry.MessagesOf | internal/api/capture_handlers.go:285-294 | For every JSON value: the field `messages` of an object that has it, the value itself otherwise |
| CaptureEntry.CompletionOf | internal/api/capture_handlers.go:296-315 | For every JSON value: the content of the first choice's message if all choices are objects or null and the path is there, the value itself otherwise |
| CaptureEntry.ExportOfLine | internal/api/capture_handlers.go:262-283 | For every line: what is not an object stays as it is; of an object, each of the three keys is there if and only if its source is, with the part of its own source |
| Calendar.DatesAscend | internal/capture/store.go:34 | Counting days forward goes forward in the calendar |
| Calendar.GregorianDates | internal/capture/store.go:34 | Every date of every year is the date of the day whose number is the days of the years and months before it, leap years included |
| Calendar.LeapYears | internal/capture/store.go:34 | The closed count of the days before a year, an extra one for every fourth year, less every hundredth, plus every four-hundredth, grows by 366 for a leap year and by 365 for any other |
| Calendar.FourDigitYears | internal/capture/store.go:66 | A time has a text of fixed width if and only if it lies before the day 3652425, the first of the year 10000 |
| Calendar.TextsRead | internal/capture/store.go:66 | Both texts read back digit by digit: year, month, day, hour, minute and second of the time, with a space in the one and `T` and `Z` in the other |
| Calendar.DateTextInOrder | internal/capture/store.go:66 | The fixed-width texts of two dates compare as the dates do, and are equal only for the same date |
| Calendar.TextComparesDays | internal/capture/store.go:174-176 | A stored timestamp's text is below a bound's text if and only if its UTC day is not after the bound's, and never equal to it |
| CaptureStore.ConditionsMean | internal/capture/store.go:52-88 | A row meets the list's conditions if and only if it is wanted and beyond the cursor, the count's if and only if it is wanted; bounds are compared by UTC day |
| CaptureStore.SinceLeavesOutItsDay | internal/capture/store.go:64-67 | For any `since`: a record stored at any time of its UTC day, however long after it, is not listed; without `since` it is |
| CaptureStore.SelectMembers | internal/capture/store.go:90-97 | A query returns exactly the rows that meet its conditions, in the order of the identifiers |
| CaptureStore.Store.InsertBatch | internal/capture/store.go:19-50 | All rows of a batch with consecutive identifiers, or nothing, depending on whether a statement of the transaction fails |
| CaptureStore.CountIsRows | internal/capture/store.go:109-113 | The count of a project is the number of the table's rows that are its own, and zero if and only if there is none |
| CaptureStore.Store.CountOf | internal/capture/store.go:109-113 | An answered count is zero if and only if no row of the table is the project's; one that is not answered is zero |
| CaptureStore.Store.DeleteByProjectBefore | internal/capture/store.go:152-182 | When both queries succeed exactly the expired rows go; otherwise none. The paths are those of the expired rows, each once |
| CaptureStore.KeptMembers | internal/capture/store.go:174-176 | What a deletion keeps are the rows that have not expired, still in order |
| CaptureStore.ExpiredPathsMembers | internal/capture/store.go:153-169 | The returned paths are exactly those of deleted rows |
| CaptureStore.ExpiredPathsDistinct | internal/capture/store.go:153-169 | No path is returned twice |
| CaptureStore.RetentionBound | internal/scheduler/capture_cleanup.go:38-39 | A record goes if and only if its UTC day is not after the cutoff's: all of N times 24 hours of age or more, none of a day less |
| CapturePaging.BeyondMembers | internal/capture/store.go:52-107 | The rows beyond a cursor are the wanted rows with greater identifiers, in order |
| CapturePaging.BeyondRow | internal/api/capture_handlers.go:46-50 | Moving the cursor to a selected row leaves exactly the rows after it |
| CapturePaging.PagingIsListing | internal/api/capture_handlers.go:28-56 | Following the next cursor gives the whole selection in order, as many rows as the count says |
| CapturePaging.CollectFixed | internal/api/capture_handlers.go:28-56 | On a table that stays as it is the pages have come to their end if and only if the requests made could bring more rows than are selected; then all of them have been collected |
| CapturePaging.CollectAscends | internal/api/capture_handlers.go:28-56 | Whatever happens to the table between the requests, no record comes twice and all come in order |
| CapturePaging.CollectCovers | internal/api/capture_handlers.go:28-56 | A record present at every request has been collected when the pages end, inserts and deletes notwithstanding |
| CaptureExport.ExportInvariant | internal/api/capture_handlers.go:110-135 | After every round the exported records and the readable ones left are all the readable ones, each once |
| CaptureExport.DownloadEndsIffNoGap | internal/api/capture_handlers.go:110-135 | On a table that stays as it is, a download ends if and only if no record is followed by a page's length, or the rest, of unreadable ones |
| CaptureExport.UnreadableTailNeverEnds | internal/api/capture_handlers.go:110-135 | One unreadable record at the end keeps a download going for ever |
| CaptureExport.ExportAscends | internal/api/capture_handlers.go:110-135 | Exported identifiers ascend, whatever is unreadable and however the table changes between the rounds |
| CaptureExport.ExportCovers | internal/api/capture_handlers.go:110-135 | A wanted record that is there and readable in every round has been exported once a page comes back empty, however the table changes |
| CaptureExport.FixedRounds | internal/api/capture_handlers.go:110-135 | On a table that stays as it is the queries of the loop export and leave what cutting the list of selected records does |
| CaptureExport.FixedDownload | internal/api/capture_handlers.go:110-135 | A download that ended on a table that stays as it is wrote exactly the lines of all readable records, in order and once |
| CaptureExport.ExportPage | internal/api/capture_handlers.go:118-128 | One page's readable lines are written in order and counted, and the cursor goes to the last of them |
| CaptureExport.PrintedSplits | internal/api/capture_handlers.go:118-128 | Splitting a page's text at its line feeds gives back the lines of its readable records, each whole and on its own |
| CaptureExport.ExportSplits | internal/api/capture_handlers.go:110-135 | The same for the text of all rounds, with one line for each exported record |
| CaptureExport.ExportCaptures | internal/api/capture_handlers.go:106-143 | For any answers to its queries, as far as they go: what is written, the count and the cursor, and whether the loop has ended or goes on |
| CaptureExport.MoreIsRightIff | internal/api/capture_handlers.go:132-141 | After a page the always set `has_more` is right if and only if a selected record lies behind the last readable one of the page |
| CaptureExport.NoMoreOnLastPage | internal/api/capture_handlers.go:132-141 | An input: behind the page of the only record, which can be read, there is no more, though `has_more` says so |
| CaptureDisk.ReadBack | internal/api/capture_handlers.go:243-253 | A line standing at an offset is read back from there, less a carriage return at its end, if and only if it is shorter than 2097152 bytes |
| CaptureDisk.NothingReadIff | internal/api/capture_handlers.go:239-246 | Nothing is read from an offset if and only if the file ends there or the next 2097152 bytes have no line feed |
| FilePool.PoolGetOk | internal/capture/writer.go:130-158 | A lookup keeps paths and descriptors distinct, each descriptor open or closed once, and returns an open one; a failed open changes nothing |
| FilePool.PathsAfterGet | internal/capture/writer.go:134-157 | A successful lookup puts its path in front of the others and keeps as many as fit |
| FilePool.LostIff | internal/capture/writer.go:139-152 | A lookup may lose synced bytes if and only if it opens a file in a full pool and the sync of the evicted one fails |
| FilePool.RecentDistinct | internal/capture/writer.go:130-158 | The reference: every path of a trace stands in it exactly once, and nothing else does |
| FilePool.RecentLatestFirst | internal/capture/writer.go:130-158 | The reference is ordered by the last lookup of each path, the latest first |
| FilePool.PoolIsLru | internal/capture/writer.go:130-158 | After every trace of lookups, failed ones among them, the pool holds exactly the most recently served paths, up to its capacity |
| FilePool.CloseAllClosesOnce | internal/capture/writer.go:168-178 | After closing the pool every descriptor ever handed out is closed, each once |
| CaptureWriter.WriteFiles | internal/capture/writer.go:29-60 | A write only adds to files, whatever fails on the way; one that succeeds has put the whole line at the offset it returns, behind everything before |
| CaptureWriter.UnwrittenLeavesFiles | internal/capture/writer.go:29-60 | A write that fails before its first byte leaves every file as the lookup of its handle did, its time of modification too; without a directory or a handle nothing changes |
| CaptureWriter.FailedWriteLeavesPart | internal/capture/writer.go:43-59 | A write that fails later leaves exactly the bytes written until then at the end of its file, all others as they were, and returns no place |
| CaptureWriter.PoolGetCovers | internal/capture/writer.go:144-151 | No lookup leaves bytes neither synced nor in an open file: an evicted file is synced first |
| CaptureWriter.WriteCovers | internal/capture/writer.go:29-60 | Nor does any write |
| CaptureWriter.WrittenIsCovered | internal/capture/writer.go:48-59 | The line just written is in an open file |
| CaptureWriter.SyncCovers | internal/capture/writer.go:160-166 | After a sync of the pool without failures those bytes are on disk |
| PipelineFlow.FlowStep | internal/capture/service.go:67-150 | Every step of every party keeps conservation, bounds, order and origin of entries and records |
| PipelineFlow.Conservation | internal/capture/service.go:34-42 | In every run: submitted is accepted plus dropped; accepted is queued, in hand, batched, inserted or counted as an error; queue and batch stay within their sizes |
| PipelineFlow.FifoAtMostOnce | internal/capture/service.go:86-97 | In every run the stored records, by identifier, are a subsequence of the accepted entries, despite the retries |
| PipelineFlow.DrainedFlow | internal/capture/service.go:102-106 | When the consumer has stopped, queue and batch are empty and every accepted entry is inserted or counted as an error |
| PipelineFlow.ThreeAttempts | internal/capture/service.go:79-97 | After the third failed attempt, and not before, the batch is given up, each of its records is counted as an error, and the table is as it was |
| PipelineFiles.FilesStep | internal/capture/service.go:121-140 | Every step keeps each line in its place, the lines of a file apart and in order, and files tied to their hour |
| PipelineGuarantees.ReachedInv | internal/capture/service.go:67-150 | All invariants hold in every state that any run from the start reaches |
| PipelineGuarantees.FlagsAreFaults | internal/capture/service.go:80-98 | Over any run each of the three flags is set if and only if its fault took place: a failed sync, an unanswered count query, a batched line an hour old; so what the flags bar are runs with that fault and no others |
| PipelineGuarantees.StoredRowIsItsEntry | internal/capture/service.go:108-140 | In every run a stored row has the request, project, model, stream flag, status and skip mark of its own entry, the sizes of its bodies, and the path of its project and hour; no path and sizes 0 when skipped |
| PipelineGuarantees.FoundByItsEntry | internal/capture/store.go:52-97 | In every run a stored row is found by a filter if and only if its entry has the model, stream flag, status and project asked for and the row lies beyond the cursor and within the days |
| PipelineGuarantees.SkippedGetsNoFile | internal/capture/service.go:108-120 | An entry whose bodies were skipped leaves pool and files as they are and batches a record without path and sizes |
| PipelineGuarantees.IndexAgreesWithFiles | internal/api/capture_handlers.go:231-259 | In every run, seeking to a stored record's offset and reading one line gives exactly the line marshalled for its entry, if it fits the reader's buffer |
| PipelineGuarantees.StaleRowReadsItsLine | internal/api/capture_handlers.go:231-259 | A row held over any later run, deleted or not, leads to its own line or to none, never to another |
| PipelineGuarantees.LinesDisjoint | internal/capture/writer.go:43-59 | In every run the lines of stored records in one file do not overlap and follow the identifiers |
| PipelineGuarantees.SyncedBeforeInsert | internal/capture/service.go:84-88 | In every run without a failed sync, what a batch refers to is on disk before any attempt to insert it: always in a trusted state, else as long as the file has its name |
| PipelineGuarantees.IndexedIsDurable | internal/capture/service.go:84-88 | In every run without a failed sync, every byte an indexed record refers to is on disk: always in a trusted state, else as long as the file has its name |
| PipelineGuarantees.GracefulDrain | internal/capture/service.go:51-55 | After `Close`: nothing queued or batched, every accepted entry accounted for, every handle closed exactly once |
| PipelineGuarantees.GoneForGood | internal/capture/writer.go:70-77 | A removed path of an hour that is over never gets a file again, in any run |
| PipelineGuarantees.CountDecides | internal/scheduler/capture_cleanup.go:57-61 | No stored record refers to the file about to be removed if and only if the count query was answered or there is no such record anyway |
| PipelineReferences.UnreferencedAlways | internal/capture/service.go:121-140 | A path that neither index nor batch refers to, and that no entry under way can be written to, is never referred to again, in any run |
| PipelineReferences.RemovalIsSafe | internal/scheduler/capture_cleanup.go:48-63 | When the cleaner removes a file in a trusted state no stored or batched record refers to it; then none does in any later state, trusted or not, and the path never gets a file again |
| RecordRetention.StaysUntilDeleted | internal/capture/store.go:175-182 | Over any run a stored record is in the index if and only if no deletion of its own project, with a cutoff for which it has expired, has taken place |
| RecordRetention.NoRecordGoesEarly | internal/scheduler/capture_cleanup.go:37-43 | Over any run, as long as its project's retention is never below N days, a record is in the index up to the age of N-1 days |
| RecordTimes.StampedInOrder | internal/capture/store.go:27-44 | In every run a record is stamped no earlier than its line was written and no later than now, and the times ascend with the identifiers, retries and the cleaner notwithstanding |
| PipelineRetention.StaysIffStranded | internal/scheduler/capture_cleanup.go:48-63 | A capture file stays in every later run, whatever its age, if and only if the cleaner does not have it in hand and either nothing refers or can come to refer to it, or its project is deleted and not listed; any other file some run removes, with stamps and cutoffs by the clock and a listed retention |
| PipelineRetention.StaysIfAnsweredIffStranded | internal/scheduler/capture_cleanup.go:57-61 | The same for runs in which all count queries are answered: a file in the hands of the cleaner stays as well if its project still has a record |
| PipelineRetention.RecordStaysIff | internal/project/service.go:178-183 | A stored record stays in every later run, whatever its age, if and only if its project is deleted and not listed, and the record not about to be deleted; any other some run deletes |
| CaptureScenarios.FileOutlivesRetention | internal/scheduler/capture_cleanup.go:37-63 | An input, without any fault and with a retention of a day throughout: a file whose record expired while its project had another one stays for ever, also when no record of the project is left |
| CaptureScenarios.DeletedProjectStays | internal/project/service.go:97-111 | An input, without any fault: the record and the file of a project that is deleted stay for ever, in spite of its retention of a day |
| CaptureScenarios.UnansweredCountDangles | internal/scheduler/capture_cleanup.go:57-59 | An input, with a retention of a day throughout: an unanswered count query removes the file of a record that is still stored |
| CaptureFiles.LruFilePool.constructor | internal/capture/writer.go:119-128 | An empty pool, of 16 handles when no capacity is given |
| CaptureFiles.LruFilePool.Get | internal/capture/writer.go:130-158 | The map and the list change as the pool's function says, and keep finding the same handles |
| CaptureFiles.LruFilePool.EvictLast | internal/capture/writer.go:144-151 | The least recently used handle leaves list and map, synced and then closed |
| CaptureFiles.LruFilePool.SyncAll | internal/capture/writer.go:160-166 | Every file of the pool is synced, but for those that fail |
| CaptureFiles.LruFilePool.CloseAll | internal/capture/writer.go:168-178 | Every handle is synced and closed, and the pool is empty |
| CaptureFiles.FileWriter.WriteEntry | internal/capture/writer.go:29-60 | Pool, files and returned place are those of the write function, for every fault on the way |
| CaptureFiles.FileWriter.AppendLine | internal/capture/writer.go:43-59 | The offset is the end of the file, the line and its line feed go there; a fault leaves what was written so far |
| CaptureService.Service.constructor | internal/capture/service.go:20-31 | Defaults for the sizes; the object starts in the step system's first state |
| CaptureService.Service.Send | internal/capture/service.go:35-41 | An entry joins the channel, or is dropped and counted as dropped when the channel is full |
| CaptureService.Service.CountSent | internal/capture/service.go:37 | An entry that was sent is counted, at any later time |
| CaptureService.Service.Submit | internal/capture/service.go:34-42 | The two together: the entry joins the channel and is counted, or is dropped and counted |
| CaptureService.Service.TakeSkippedEntry | internal/capture/service.go:108-120 | A skipped body is batched without a file; its record says of the entry what the entry says |
| CaptureService.Service.TakeWrittenEntry | internal/capture/service.go:121-140 | An entry is written and its record, which says of the entry what the entry says, batched with the place of its line, or counted as a write error |
| CaptureService.Service.ProcessEntry | internal/capture/service.go:100-145 | One entry: which steps are taken, in which order, up to a flush when the batch is full |
| CaptureService.Service.OnTick | internal/capture/service.go:146-147 | A tick flushes a batch that is not empty |
| CaptureService.Service.Flush | internal/capture/service.go:80-98 | The sync, then the attempts to insert, in this order; the batch is indexed whole or dropped and counted |
| CaptureService.Service.InsertStamped | internal/capture/store.go:19-50 | One attempt: all records with the times at which their statements ran, or none when a statement fails or its time has no text |
| CaptureService.StampsAt | internal/capture/store.go:27-44 | Each record of a batch is stamped with the time at which its own statement has run, after those before it |
| CaptureService.Service.InsertWithRetries | internal/capture/service.go:86-97 | Attempts up to the first that commits, three at most in all; the table holds the batch once or not at all |
| CaptureService.Service.Resume | internal/capture/service.go:80-148 | From wherever it stands, an entry in hand, a flush or an attempt to insert, the consumer comes back to its loop |
| CaptureService.Service.Close | internal/capture/service.go:51-55 | Wherever the consumer stands, the channel is drained and the files are closed once each; what was counted is indexed or counted as an error |
| CaptureReader.ExportReads | internal/api/capture_handlers.go:217-260 | In every run an export reads for each record its own entry's line, the metadata of a skipped one, and nothing only if the file has lost its name or the line is too long; in a trusted state it has its name |
| CaptureReader.SkippedLineOf | internal/api/capture_handlers.go:218-229 | The line of a skipped record parses back to exactly seven keys, each with the value of its own column |
| CaptureReader.ReaderReadsLines | internal/api/capture_handlers.go:217-260 | Nothing that is read has a line feed in it, in either format, so that `CaptureExport.ExportSplits` applies |
| CaptureReader.UnreadableIff | internal/api/capture_handlers.go:217-260 | In every run a stored record cannot be read if and only if its file has lost its name or its own line exceeds the reader's buffer; in a trusted state if and only if the line does |
| CaptureReader.DownloadEndsIffNoUnreadableGap | internal/api/capture_handlers.go:110-135 | In every run a download ends if and only if no selected record without its file or with an over-long line is followed by a page's length, or the rest, of such records |
| CaptureScenarios.LongLineNeverEnds | internal/api/capture_handlers.go:110-135 | An input: a reached state whose last record has a line too long for the reader keeps a download going for ever |
| CaptureReader.CapturedStreamIsExported | internal/api/capture_handlers.go:217-315 | End to end: the export of a stored streamed record whose file has its name and whose own line fits the reader's buffer holds all deltas before `[DONE]` and the `messages` of the client's request, whatever the reads and whatever the interleaving of the pipeline |
| CaptureCleanup.CheckPath | internal/scheduler/capture_cleanup.go:48-63 | A path loses its name if and only if its file can be looked up, is an hour old, no record of the project is left or the count is not answered, and the removal succeeds; no other file is touched |
| CaptureCleanup.DeleteExpired | internal/scheduler/capture_cleanup.go:39-43 | The expired records go and their paths are to be looked at, or nothing comes of it when a query fails |
| CaptureCleanup.CheckPaths | internal/scheduler/capture_cleanup.go:48-63 | Of the paths looked at, exactly those for which this holds at their turn lose their names |
| CaptureCleanup.CleanProject | internal/scheduler/capture_cleanup.go:38-63 | Which records of a project go, and which files with them |
| CaptureCleanup.CleanInTurn | internal/scheduler/capture_cleanup.go:37-63 | The cutoff is the retention before the time of the turn; records and files after it |
| CaptureCleanup.RunCaptureCleanup | internal/scheduler/capture_cleanup.go:30-65 | With the list of projects: left are exactly the records that expire in no turn, and exactly the files that no turn removes; without it nothing happens |
| CleanupRules.CleanedUpMembers | internal/scheduler/capture_cleanup.go:37-43 | The records left by all turns are those that expire in none of them, in order |
| CleanupRules.CleanedUpAges | internal/scheduler/capture_cleanup.go:38-39 | After a cleanup no record of a project whose turn deletes was created up to the cutoff; none that is gone was created a day or more after it |
| CleanupRules.LongRetentionKeepsNothing | internal/scheduler/capture_cleanup.go:38 | An input: with a retention of 213503 days every record expires, the newest ones included |
| Projects.ShiftIsDays | internal/scheduler/capture_cleanup.go:38 | The cutoff lies N times 24 hours before now if and only if N is at most 106751 either way |
| Projects.ListedMembers | internal/project/service.go:178-183 | The list has exactly the projects that are not deleted and have a positive retention |
| Projects.ProjectService.Create | internal/project/service.go:21-43 | A new row behind the others: the sample rate clamped to between 0 and 1, 30 days for a negative retention, the flag as given |
| Projects.ProjectService.Update | internal/project/service.go:79-95 | A row that is not deleted gets flag, retention and clamped rate; all others stay as they are |
| Projects.ProjectService.Delete | internal/project/service.go:97-111 | The row is deleted, the others stay as they are |
| Projects.ProjectService.ListWithRetention | internal/project/service.go:178-189 | The identifiers and retentions of exactly those projects, or an error |
| ProjectHandlers.CreateProject | internal/project/service.go:21-43 | A new identifier; table and step system agree on its retention, 30 days for a negative one |
| ProjectHandlers.UpdateProject | internal/project/service.go:79-95 | A project that is not deleted gets the given retention, a deleted one stays deleted; table and step system agree |
| ProjectHandlers.DeleteProject | internal/project/service.go:97-111 | The project is gone, never to be listed again; table and step system agree |
| CleanupRules.FaultlessTurnRemoves | internal/scheduler/capture_cleanup.go:48-63 | Without faults a turn removes a file if and only if an expiring record referred to it, it is an hour old and the whole project has no record left |
| CleanupRules.RemovedWasExpired | internal/scheduler/capture_cleanup.go:48-63 | A file that goes in a cleanup was referred to by a record that expired in it |
| ProjectCache.ShouldCapture | internal/proxy/capture.go:93-104 | An enabled project captures exactly the draws below its sample rate |
| ProjectCache.Cache.Get | internal/proxy/capture.go:30-38 | A project is found exactly while its entry has not expired, and is then a value its row had and did not lose before the lifetime plus the longest fetch ago |
| ProjectCache.Cache.Set | internal/proxy/capture.go:40-47 | At the end of a fetch: the project is found at all times up to the lifetime from now and at no later one, and other projects as before |
| ProjectCache.Cache.Invalidate | internal/proxy/capture.go:49-53 | The project is found at no time, others as before; nobody is served an older value again if and only if no fetch that read one is under way |
| ProjectCache.Cache.GetProjectCached | internal/proxy/capture.go:79-91 | The cached project, recent as above, else the fetched one, which is found for its lifetime from then on |
| ProjectCache.MaybeCapture | internal/proxy/capture.go:56-77 | What is submitted: nothing, the entry, or the entry without either body and marked as skipped when one exceeds a positive limit |
| ProjectCache.StalenessBound | internal/proxy/capture.go:79-91 | In every interleaving a served project is a value its row had and did not lose before the lifetime plus the longest fetch ago |
| ProjectCache.SlowIffLongFetch | internal/proxy/capture.go:79-91 | Over any run `slow` is set if and only if some fetch took longer than the bound, so that the bound on staleness covers all other runs |
| ProjectCache.InvalidationHoldsIffNoOldFetch | internal/api/project_handlers.go:125-131 | After an update and its invalidation no run serves an older value if and only if no fetch from before the update is still under way |
| ProjectCache.OldValueComesBack | internal/api/project_handlers.go:125-131 | An input: a fetch reads, the row is updated and the cache invalidated, the fetch sets the cache, and the old value is served |
| TargetSelection.SelectTarget | internal/route/service.go:254-273 | No row, the only target, a panic on a total that is not positive, or the target chosen by the pick; never the fallback |
| TargetSelection.ChosenIff | internal/route/service.go:266-272 | For any weights: which picks choose a target, and that some target is chosen |
| TargetSelection.PicksAreWeight | internal/route/service.go:261-272 | With weights that are not negative, exactly as many of the picks choose a target as its weight says |
| Percentile.ComputePercentile | internal/diagnostics/helpers.go:35-50 | The value at the truncated rank of the scanned latencies in order, 0 without any |
| Percentile.ReportedIsOrderStatistic | internal/diagnostics/helpers.go:16-50 | What is reported is an order statistic of the whole sample, at the rank of the rows the limit leaves |
| Percentile.ReportedBelowFull | internal/diagnostics/helpers.go:16-50 | It never exceeds the value without the limit and equals it up to 10000 samples |
| Percentile.ReportedMonotone | internal/diagnostics/helpers.go:46-50 | It grows with the percentage |
| Percentile.ReportedIsPercentileOfRows | internal/diagnostics/helpers.go:46-50 | Of its own rows more than the percentage lie at or below it, no more than the percentage below |

## Left out

- CaptureExport.ExportCaptures: follows the loop as far as the given queries go; that it goes on for ever after them is `CaptureExport.DownloadEndsIffNoGap`, on a table that stays as it is.
- CaptureCleanup.RunCaptureCleanup: a cutoff outside the years 0 to 9999, whose text would not be of fixed width, leaves the project's records alone.
- CaptureCleanup.CheckPath: the empty path of skipped bodies leads to the base directory; whether that is removed when empty is not followed, a later write creates it again.
- CaptureService.Service.Submit: calls its two halves in a row; between `Send` and `CountSent` any other step may come, in the object as in the step system.
- CaptureService.Service.Close: no entry is submitted afterwards, as the source panics then.
- PipelineReferences.RemovalIsSafe: that nothing refers to the file at the moment of its removal is said for trusted states, that is without unanswered count queries and batches that waited for an hour; `PipelineGuarantees.CountDecides` says what an unanswered query does.
- PipelineRetention.StaysIffStranded: that any other file is removed by some run is said for clocks that the longest retention does not take past the year 9999, where the index's texts end; the same for `PipelineRetention.StaysIfAnsweredIffStranded` and `PipelineRetention.RecordStaysIff`.
- CapturePipeline.Apply: an entry may be submitted for any project at any time, also for one that never existed or was deleted, which the proxy's cache rules out or bounds; the foreign key from records to projects is thus left out too.
- Projects.ProjectService.ListWithRetention: the list comes in the order of the identifiers; names, their uniqueness and the other columns are left out.
- ProjectCache.Cache.GetProjectCached: runs its lookup, fetch and set in a row; other requests' steps in between are those of the step system, and of calling `Get`, `BeginFetch` and `Set` one by one.
- SseStream.ChunkingIndependence: the reads before the last byte are not empty and do not fail; `SseStream.ReadLinesOutcome` covers all other reads.
- The JSON text itself, the fields `parseDelta` and `parseChunkMeta` pick, and token counting.
- HTTP handlers, authentication and tokens, parsing of filter parameters, header copying, the path check of the export, errors of writing to the client, which the source ignores.
- SQLite beyond an ordered table with atomic transactions; a crash in the middle of one, and files changed by hand.
- Daylight saving time: the server's clock is a fixed offset from UTC.
- The width of machine integers, but for the nanoseconds of a retention, and the part of a second of the clock.
- Providers, routes, API keys, request logs, migrations, health checks, log cleanup, metrics output and the web interface, which would only add easy members.
