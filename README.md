# Splitter page: a Dafny model

The splitter page (`split-proj/src/App.jsx`) is a React component. It uploads a transaction
file, together with a payment mode and an area, to a processing service. It polls the service
until processing has finished, then shows the file's raw lines with a debounced,
case-insensitive search. Finally it asks the service for a report archive and saves that.
Inside the plumbing there are five pieces of logic, and this project models each one and
proves what it promises:

- `text_normalizer.dfy` (module `TextNormalizer`) is the line cleaner `cleanLineContent`.
  - `|`, `^` and `,` become spaces, whitespace runs collapse, and the result is trimmed.
  - It is proved equal to an independent definition: the words of the line, joined by single
    spaces.
- `amounts.dfy` (module `Amounts`) is the cross-check total `calculateTotalAmount`.
  - Each line is scanned for leftmost, non-overlapping matches of `\b\d+\.\d{1,4}\b`, with the
    regular expression engine's backtracking worked out.
  - Values are exact, kept in ten-thousandths, and rounded half-up to cents.
  - The method with the source's nested loops is proved against a pure total.
- `search_filter.dfy` (module `SearchFilter`) is the `filteredContents` memo: a substring
  filter that ignores case.
- `debounce.dfy` (module `Debounce`) covers `useDebounce`, `handleSearchChange`,
  `clearSearch` and the effect that resets `isSearching`.
  - It is modelled as a discrete event system: a change re-arms a 300-tick timeout, and a tick
    counts it down and fires it.
  - `SearchBox` is the class whose methods update the fields.
  - `SearchBox.TimerTick` runs the corrected reset of `isSearching`. It lowers the flag
    whenever the timeout fires. The code as written at `split-proj/src/App.jsx:68-70` lowers
    it only when the debounced value changes. That version is `Tick` with `AsWritten`, and
    the difference is the finding below.
- `report_filename.dfy` (module `ReportFilename`) holds the names used when a report is
  exported.
  - The base name is `split('.')`, `slice(0, -1)`, `join('.')` on the uploaded file's name.
  - The download name comes from `/filename[^;=\n]*=((['"]).*?\2|[^;\n]*)/` on the
    `Content-Disposition` header, quotes removed, or falls back to `<base>_<area>.zip`.
- `workflow.dfy` (module `Workflow`) is the upload, poll and export state machine.
  - `AppState` is the component's state, and each handler and each reply is a pure transition.
  - `Consistent` is an invariant that every transition keeps.
  - `App` is the class whose methods change the fields as the handlers do.
  - Requests in flight are kept in `pending`. Replies are inputs and may arrive in any order.
- `common.dfy` (module `Common`) holds `Option`, an opaque `Json`, JavaScript's `x || d`
  on strings and the prefix test `StartsWith`.

Behaviour of the code worth noting, all of it modelled as the code has it:

- There is no "uploading" status. A file goes straight to `'processing'`
  (`setUploadStatus('processing')` at `split-proj/src/App.jsx:102`).
- A new upload does not discard the previous processed data or raw lines. `handleFileChange`
  (`split-proj/src/App.jsx:100-104`) does not reset them.
- A status reply for an earlier upload is not ignored. `pollProcessingStatus`
  (`split-proj/src/App.jsx:131-165`) never compares its id with the current `processingId`.
  It is applied like any other, so `pending` may hold several poll loops at once.
- `calculateTotalAmount` (`split-proj/src/App.jsx:259-280`) has no caller in the component,
  so the total it computes is never shown. The "Total Amount" on the page is the service's
  `processedData.summary.total_amount` (`split-proj/src/App.jsx:425-428`).
- The poll loop has no bound. Any status other than `completed` or `error` schedules another
  poll (`split-proj/src/App.jsx:156-158`).

Units and names:

- `CalculateTotalAmount` returns the total in cents. The source returns the same number
  divided by 100.
- The `file` state variable always holds the same file as `uploadedFile`, so only
  `uploadedFile` (its name) is kept.

## Model

| member | source | states |
|---|---|---|
| TextNormalizer.CleanLineContent | split-proj/src/App.jsx:244-256 | `cleanLineContent`: the three delimiter replacements, the whitespace collapse and the trim. Its meaning is stated by `CleanLineContentIsJoinedWords`, `CleanLineContentIsClean` and `CleanLineContentIdempotent` |
| TextNormalizer.CleanLineContentIsJoinedWords | split-proj/src/App.jsx:244-256 | the cleaned line is exactly the line's maximal runs of non-whitespace, non-delimiter characters, joined by single spaces |
| TextNormalizer.CleanLineContentOfEmpty | split-proj/src/App.jsx:245 | the empty line cleans to the empty string |
| TextNormalizer.CleanLineContentIsClean | split-proj/src/App.jsx:248-253 | the output holds no `\|`, `^` or `,`, only plain spaces as whitespace, none at either end and never two in a row |
| TextNormalizer.CleanLineContentIdempotent | split-proj/src/App.jsx:244-256 | cleaning a cleaned line gives it back unchanged |
| TextNormalizer.CleanLineContentExample | split-proj/src/App.jsx:248-253 | `A\|B^C,D` cleans to `A B C D` |
| Amounts.MatchesFrom | split-proj/src/App.jsx:265-266 | `line.match(amountRegex)` with the `g` flag: leftmost attempts from a position, each restarting after the previous match. `MatchesAreTokens` proves every entry has the expression's shape, and `MatchAtIsRegex` proves each attempt |
| Amounts.MatchAt | split-proj/src/App.jsx:265-266 | an attempt of `\b\d+\.\d{1,4}\b` at a position, when it succeeds, ends after that position and within the line |
| Amounts.MatchAtIsRegex | split-proj/src/App.jsx:265-266 | the attempt succeeds exactly when the expression has a match at that position (digits, dot, one to four digits, word boundaries at both ends), and the match it reports is the only one |
| Amounts.MatchesAreTokens | split-proj/src/App.jsx:265-268 | every token the global match returns has the shape digits, dot, one to four digits |
| Amounts.TokenValue | split-proj/src/App.jsx:270 | the exact value of a token is its integer part plus its fractional digits scaled to four places |
| Amounts.ScaledValue | split-proj/src/App.jsx:270 | `parseFloat` on a matched token, exact, in ten-thousandths. `TokenValue` and `TokenValueWithoutDot` state its value |
| Amounts.TokenValueWithoutDot | split-proj/src/App.jsx:270 | scaled by ten for each fractional digit, a token's value is the integer its digits spell once the dot is removed |
| Amounts.RoundToCents | split-proj/src/App.jsx:272 | `Math.round(amount * 100)` is the nearest number of cents, halves rounded up |
| Amounts.TokenCents | split-proj/src/App.jsx:271-274 | a token adds at most 1,000,000.00 |
| Amounts.CalculateTotalAmount | split-proj/src/App.jsx:259-280 | the nested loops compute the sum over all lines and tokens of the in-range values rounded to cents, and a non-array input gives 0 |
| Amounts.TotalAmount | split-proj/src/App.jsx:259-280 | the total in cents: 0 for anything that is not an array, otherwise the sum over lines and tokens. `CalculateTotalAmount` is proved to compute it, and `TotalCentsIsOrderIndependent` proves it ignores line order |
| Amounts.TotalCentsIsOrderIndependent | split-proj/src/App.jsx:262-277 | two line collections with the same multiset of lines have the same total |
| SearchFilter.FilteredContents | split-proj/src/App.jsx:49-56 | no contents give `[]`; otherwise the result, empty-term shortcut included, is the filter of the contents by the term |
| SearchFilter.Filter | split-proj/src/App.jsx:53-55 | `rawContents.filter(...)`, never longer than its input. `FilterMembership`, `FilterCounts` and `FilterAppend` state what it keeps and in which order |
| SearchFilter.IncludesIffOccurs | split-proj/src/App.jsx:54 | `includes` holds exactly when the term occurs at some offset of the line |
| SearchFilter.FilterAppend | split-proj/src/App.jsx:53-55 | the filter distributes over concatenation, so it keeps the original order |
| SearchFilter.FilterSingle | split-proj/src/App.jsx:53-55 | one line is kept exactly when its lower-cased text contains the lower-cased term |
| SearchFilter.FilterCounts | split-proj/src/App.jsx:53-55 | a matching line occurs in the result as often as in the contents, and a non-matching one not at all |
| SearchFilter.FilterMembership | split-proj/src/App.jsx:53-55 | a line is in the result exactly when it is in the contents and matches |
| SearchFilter.FilterEmptyTerm | split-proj/src/App.jsx:51 | filtering by the empty term keeps every line, so the shortcut is the identity the filter would give |
| SearchFilter.MatchIgnoresCase | split-proj/src/App.jsx:54 | a line matches exactly when its lower-cased form matches the lower-cased term |
| SearchFilter.MatchIgnoresLineCase | split-proj/src/App.jsx:54 | changing the case of any one letter of a line does not change whether the line is shown |
| SearchFilter.MatchIgnoresTermCase | split-proj/src/App.jsx:54 | changing the case of any one letter of the term does not change whether a line is shown |
| SearchFilter.FilterNarrows | split-proj/src/App.jsx:53-55 | a line shown for a term is also shown for every term that term contains |
| Debounce.Initial | split-proj/src/App.jsx:38-39 | on mounting the term is empty, `isSearching` is down and the debounced value is the empty term. `InitialSettles` proves the invariant holds there |
| Debounce.OnSearchChange | split-proj/src/App.jsx:58-61 | a change raises `isSearching`, replaces the term, re-arms the timeout with the full delay and leaves the debounced value alone |
| Debounce.OnClearSearch | split-proj/src/App.jsx:63-66 | clearing empties the term and lowers `isSearching` at once |
| Debounce.EventsPreserveValid | split-proj/src/App.jsx:9-23 | every event keeps the pending timeout tied to the current term, and an idle timer means the debounced value has caught up |
| Debounce.EventsPreserveSettles | split-proj/src/App.jsx:58-70 | with the corrected reset, `isSearching` is up only while a timeout is pending |
| Debounce.Tick | split-proj/src/App.jsx:12-70 | one tick counts the debounce timeout (lines 13-15) down or fires it, never touching the typed term. On firing, the reset effect (lines 68-70) lowers `isSearching` only if the debounced value changed in the `AsWritten` variant, and always in `Corrected`. `NothingBeforeDelay`, `FiresAtDelay`, `StuckSearchingAsWritten` and `SearchingSettles` state what the ticks do |
| Debounce.NothingBeforeDelay | split-proj/src/App.jsx:13-15 | before the timeout is due, ticks only count it down |
| Debounce.FiresAtDelay | split-proj/src/App.jsx:12-15 | when the timeout is due, the debounced value becomes its value and nothing is pending |
| Debounce.DebouncedAfterFullDelay | split-proj/src/App.jsx:12-20 | after a change the debounced value stays put for 299 ticks and is the new term at tick 300 |
| Debounce.ChangeRestartsDelay | split-proj/src/App.jsx:17-19 | a change before the timeout is due cancels it and arms a fresh full delay |
| Debounce.IdleIsStable | split-proj/src/App.jsx:12-20 | with no timeout pending, time changes nothing |
| Debounce.SearchingSettles | split-proj/src/App.jsx:58-70 | with the corrected reset, a full delay after any reachable state `isSearching` is down and the debounced value equals the term |
| Debounce.MountedThenIdle | split-proj/src/App.jsx:9-20 | one full delay after mounting, the first timeout has fired and the box is empty, idle and not searching, which is the state `StuckSearchingAsWritten` starts from |
| Debounce.StuckSearchingAsWritten | split-proj/src/App.jsx:68-70 | as written, typing a letter and deleting it within the delay leaves `isSearching` up for good |
| ReportFilename.BaseFileName | split-proj/src/App.jsx:179 | `split('.').slice(0, -1).join('.')`. `BaseFileNameBeforeLastDot` and `BaseFileNameWithoutDot` state its value |
| ReportFilename.JoinSplit | split-proj/src/App.jsx:179 | joining the pieces of a split gives back the string |
| ReportFilename.SplitJoin | split-proj/src/App.jsx:179 | splitting a join of dot-free pieces gives back the pieces |
| ReportFilename.SplitJoinSplit | split-proj/src/App.jsx:179 | no piece of a split holds the separator, and splitting the join of a split gives back the same pieces |
| ReportFilename.OriginalFileName | split-proj/src/App.jsx:178 | the uploaded file's name when it is present and non-empty, otherwise `report`; never empty |
| ReportFilename.Fallback | split-proj/src/App.jsx:223 | the fallback name is the base name, `_`, the area and `.zip`, in that order |
| ReportFilename.BaseFileNameBeforeLastDot | split-proj/src/App.jsx:179 | the base name is everything before the last dot |
| ReportFilename.BaseFileNameWithoutDot | split-proj/src/App.jsx:179 | a name without a dot has an empty base name |
| ReportFilename.NoUploadGivesEmptyBase | split-proj/src/App.jsx:178-179 | without an uploaded file the name `report` is used, and its base name is empty |
| ReportFilename.ExecFrom | split-proj/src/App.jsx:215 | `exec`: the group of the first position where the expression matches. `ParameterAt` and `ExecSkipsTo` state which `filename=` it finds |
| ReportFilename.HeaderFilename | split-proj/src/App.jsx:213-218 | the quote-free name from a non-empty header whose match has a non-empty group. `QuotedParameter`, `UnquotedParameter` and `NoParameterGivesFallback` state the outcomes |
| ReportFilename.StripQuotes | split-proj/src/App.jsx:217 | removing quotes leaves no `'` or `"` |
| ReportFilename.DownloadName | split-proj/src/App.jsx:211-224 | the saved name is the fallback or a non-empty, quote-free name from the header, and the fallback when there is no header |
| ReportFilename.QuotedParameter | split-proj/src/App.jsx:213-224 | a quoted `filename="v"` gives `v` without quotes, or the fallback when that is empty |
| ReportFilename.UnquotedParameter | split-proj/src/App.jsx:213-217 | an unquoted `filename=v` runs to the next `;` or newline, quotes removed |
| ReportFilename.NoParameterGivesFallback | split-proj/src/App.jsx:213-224 | a header without `filename` gives `<base>_<area>.zip` |
| Common.OrElse | split-proj/src/App.jsx:149-237 | `x \|\| d` on a string: a present, non-empty `x` is kept, and a missing or empty one gives `d` (used at lines 149, 153, 178 and 237) |
| Workflow.Initial | split-proj/src/App.jsx:26-44 | the `useState` defaults: nothing selected, status idle, nothing processing or exporting, no error, file, data, raw lines or separator, nothing in flight and nothing saved. `InitialConsistent` proves the invariant holds there |
| Workflow.InitialConsistent | split-proj/src/App.jsx:26-44 | the invariant holds on the mounted page, so with the preservation lemmas it holds in every reachable state |
| Workflow.ReportButtonEnabled | split-proj/src/App.jsx:373-381 | the button is enabled only when it is shown (raw lines present and non-empty) and there is processed data, and never while an export is running |
| Workflow.ClickDisablesButton | split-proj/src/App.jsx:167-187 | a click on the enabled button disables it: the state right after the click does not enable the button |
| Workflow.SelectPaymentMode | split-proj/src/App.jsx:297 | the dropdown's choice. `App.SetPaymentMode` applies it, keeping the invariant |
| Workflow.SelectArea | split-proj/src/App.jsx:314 | the dropdown's choice. `App.SetArea` applies it, keeping the invariant |
| Workflow.FileChange | split-proj/src/App.jsx:86-115 | `handleFileChange` up to the upload request. `FileChangeNeedsSelections`, `FileChangeStartsProcessing` and `FileChangeConsistent` state its outcomes |
| Workflow.UploadReplied | split-proj/src/App.jsx:117-128 | the upload's outcome. `UploadOutcomes` and `UploadRepliedConsistent` state it |
| Workflow.StatusReplied | split-proj/src/App.jsx:131-165 | one poll's outcome. `PollCompleted`, `PollReportsError`, `PollStillRunning`, `PollFails` and `StatusRepliedConsistent` state it |
| Workflow.Complete | split-proj/src/App.jsx:140-151 | the `completed` branch. `PollCompleted` states what it stores |
| Workflow.Fail | split-proj/src/App.jsx:160-164 | the catch branch: the message is shown and processing ends in the error state. `PollFails` and `UploadOutcomes` state it |
| Workflow.TimerFired | split-proj/src/App.jsx:158 | the one-second timer fires the next poll of the same id. `TimerFiredConsistent` states it keeps the invariant |
| Workflow.GenerateReport | split-proj/src/App.jsx:167-187 | `handleGenerateReport` up to the export request. `ReportNeedsData`, `ReportRequestSent` and `GenerateReportConsistent` state its outcomes |
| Workflow.ReportReplied | split-proj/src/App.jsx:197-240 | the export's outcome. `ExportSavesArchive`, `FailedExportKeepsData` and `ReportRepliedConsistent` state it |
| Workflow.MergeSummary | split-proj/src/App.jsx:142-145 | the stored data has `summary` set to the reply's summary and otherwise the fields of `processed_data` |
| Workflow.FileChangeNeedsSelections | split-proj/src/App.jsx:88-98 | no file changes nothing; a missing payment mode or area only sets the matching error, and nothing is uploaded |
| Workflow.FileChangeStartsProcessing | split-proj/src/App.jsx:100-115 | with both selections, the status goes straight to processing, the error is cleared and exactly one upload is sent |
| Workflow.UploadOutcomes | split-proj/src/App.jsx:117-128 | a failed upload ends in the error state with its message; an accepted one records the id and starts exactly one poll |
| Workflow.PollCompleted | split-proj/src/App.jsx:140-151 | `completed` stores the data with its summary, the raw lines and the separator (default `''`) and ends processing |
| Workflow.PollReportsError | split-proj/src/App.jsx:152-155 | `error` ends in the error state with the service's message or `Error processing file` |
| Workflow.PollStillRunning | split-proj/src/App.jsx:156-158 | any other status changes nothing and schedules exactly one further poll of the same id |
| Workflow.PollFails | split-proj/src/App.jsx:133-164 | a failed status request ends in the error state |
| Workflow.ReportNeedsData | split-proj/src/App.jsx:168-171 | without processed data or raw lines, an export only sets `No data available for report generation` |
| Workflow.ReportRequestSent | split-proj/src/App.jsx:173-187 | otherwise one export is sent with the data, separator, base name and area, and the error is cleared |
| Workflow.EnabledButtonPassesGuard | split-proj/src/App.jsx:373-381 | an enabled "Generate Report" button always passes the handler's guard |
| Workflow.FailedExportKeepsData | split-proj/src/App.jsx:197-240 | a failed export sets its message and keeps the processed data and raw lines |
| Workflow.ExportSavesArchive | split-proj/src/App.jsx:201-234 | a successful export saves exactly one archive under the derived name and clears the error |
| Workflow.CountWorkRemoveAt | split-proj/src/App.jsx:106-165 | a request that settles takes its own kind's count of requests in flight down by one |
| Workflow.FileChangeConsistent | split-proj/src/App.jsx:86-104 | file selection keeps the invariant |
| Workflow.UploadRepliedConsistent | split-proj/src/App.jsx:117-128 | the upload's outcome keeps the invariant |
| Workflow.StatusRepliedConsistent | split-proj/src/App.jsx:131-165 | every poll outcome keeps the invariant |
| Workflow.TimerFiredConsistent | split-proj/src/App.jsx:158 | the re-poll timer keeps the invariant |
| Workflow.GenerateReportConsistent | split-proj/src/App.jsx:167-187 | starting an export keeps the invariant |
| Workflow.ReportRepliedConsistent | split-proj/src/App.jsx:197-240 | the export's outcome keeps the invariant |
| Workflow.App.HandleFileChange | split-proj/src/App.jsx:86-104 | the handler updates the fields as `FileChange` says and keeps the invariant |
| Workflow.App.OnUploadReply | split-proj/src/App.jsx:117-128 | the upload's outcome updates the fields as `UploadReplied` says |
| Workflow.App.OnStatusReply | split-proj/src/App.jsx:131-165 | a poll's outcome updates the fields as `StatusReplied` says |
| Workflow.App.StoreCompleted | split-proj/src/App.jsx:147-151 | the setters of a `completed` poll change the fields as `Complete` says |
| Workflow.App.OnPollTimer | split-proj/src/App.jsx:158 | the re-poll timer sends the next status request |
| Workflow.App.HandleGenerateReport | split-proj/src/App.jsx:167-187 | the handler updates the fields as `GenerateReport` says |
| Workflow.App.OnReportReply | split-proj/src/App.jsx:189-240 | the export's outcome updates the fields as `ReportReplied` says |
| Workflow.App.SetPaymentMode | split-proj/src/App.jsx:282-297 | the dropdown sets the payment mode to the placeholder or one of the nine modes |
| Workflow.App.SetArea | split-proj/src/App.jsx:283-314 | the dropdown sets the area to the placeholder or one of the four areas |
| Debounce.SearchBox.HandleSearchChange | split-proj/src/App.jsx:58-61 | the handler updates the fields as `OnSearchChange` says |
| Debounce.SearchBox.ClearSearch | split-proj/src/App.jsx:63-66 | the handler updates the fields as `OnClearSearch` says |
| Debounce.SearchBox.TimerTick | split-proj/src/App.jsx:12-15 | a tick updates the fields as the corrected `Tick` says |

## Left out

- Rendering, the drag-and-drop handlers (`handleDragOver`, `handleDrop`) and `console.log`
  are left out, because they are user interface only. A dropped file reaches the same
  `handleFileChange`.
- `fetch`, JSON decoding, `FormData`, blobs and the download link are left out. Each request
  is an entry of `pending`, and its reply is an input datatype. The saved archive is recorded
  only by its name in `downloads`.
- Real time is not modelled. The 300 ms debounce is 300 ticks. The 1000 ms re-poll delay is
  a `PollTimer` request that the environment may fire at any moment.
- Floating point is not modelled.
  - `CalculateTotalAmount` computes exactly, so it does not model JavaScript's binary
    rounding. For example, `Math.round(1.005 * 100)` gives 100, where the model gives 101.
  - `toLocaleString` currency formatting is left out.
- The whitespace set is JavaScript's full `\s`. Lower-casing covers ASCII only, so
  `LineMatches` does not model Unicode case mapping.
- SearchFilter.FilteredContents assumes every raw line is a string. `String(content)` on
  other JSON values is not modelled.
- The unused progress counters, the unused `summary` and `processingStatus` state, and the
  unused `JSZip`/`axios` imports are left out.
- Workflow.MergeSummary spreads only JSON objects. Spreading a string or an array into the
  object is not modelled.
- Workflow.StatusReplied takes `raw_contents` as a list of strings or absent. It takes
  `separator` and `error` as strings or absent. Other JSON values are not modelled. So
  `data.separator || ''` and `data.error || 'Error processing file'` on a falsy value that is
  not a string (`0`, `false`) cannot be expressed. Only the missing and the empty string take
  the default.
- There are no properties about cancelling stale polls or bounding the poll loop, because
  the code does neither.
- The `FileUpload` and `DataTable` components are not part of this model.

## Findings

| source | as written | input that shows it | evidently intended | confidence | as-written member | corrected member |
|---|---|---|---|---|---|---|
| split-proj/src/App.jsx:68-70 | `isSearching` is reset only by an effect on `debouncedSearchTerm`. When the debounce timeout sets the value the debounced term already has, the effect's dependency is unchanged, so the effect is skipped whether or not React renders again. | From an empty box (`MountedThenIdle`: the mounted page one delay on), type `a` and delete it within 300 ms. The timeout sets `""` over `""`, and "Searching..." stays up until the next edit. | The flag goes down whenever the debounced term catches up with the typed term. | not executed | Debounce.StuckSearchingAsWritten | Debounce.SearchingSettles |
