# Bilibili follow-list inactivity cleaner — a Dafny model

The cleaner is a desktop tool. It reads an exported follow list (`export_uids.json`: one
`{mid, name, tag}` record per followed account) and asks the Bilibili API for each account's
newest upload. It then works out how many whole days have passed since that upload and shows the
accounts in a table, filtered by a threshold of inactive days. The accounts on show, or the
selected ones, can be exported as a comma-separated uid list. It also has a detailed quoted export.
The fetched payloads are kept in a cache file, and the same results can be rebuilt from it later.

The model covers the logic behind that. One Dafny module follows each Java class:

- `Users`: the account record (`UserData`) and its day count.
  - The record is a value, because the Java object is only written by its constructors.
  - The wall clock and the zone offset are a `Clock` parameter.
- `Classification`: what the two loading paths share.
  - The payload shapes and the identity maps, where the last write wins.
  - The `processUserData` rule: records with uploads first, the rest after.
  - The loop body both tasks run (`AddEntry`).
- `ProcessingTask`: `DataProcessingTask`.
  - The identity parse and the batched fetch loop, with its progress count and pauses.
  - The classification.
  - Each HTTP request's outcome is an input sequence.
- `CacheLoading`: `CacheLoadingTask`.
  - The lookup order for the companion identity file.
  - The replay of cached payloads, which aborts on an entry whose `mid` cannot be read.
- `DataExport`: `DataExporter`.
  - The export modes and the checks, in the code's order.
  - The compact uid file and the detailed file.
  - The directory test and the file writing are left to the caller.
- `Window`: the parts of `MainApp` that hold logic.
  - The threshold fields and the live filter.
  - The count label.
  - The handlers of the process, load and export buttons.
  - The lookup from table rows back to users.
  - `MainApp` is a class whose fields are the full result list, the table rows, the label and the two text fields.
- `JavaText`, `Seqs` and `Wrappers` are support modules. They hold Java's integer and string
  library, the sequence lemmas, and `Option`/`Result`.

Behaviours of the program that the model keeps, as the code has them:

- The day count is not clamped at 0. An upload in the future gives a negative count
  (`Users.InactiveDaysAreCompleteDays`), and a count beyond the `int` range wraps
  (`JavaText.NarrowToInt32`).
- A failed request drops the account from the results instead of recording it as "no upload"
  (`ProcessingTask.FetchedLength`).
- Duplicate ids produce one record per occurrence, and nothing is deduplicated.
- The table-row lookup of a duplicated uid always finds the first user with that uid.
- The detailed export escapes a quote as backslash-quote and leaves a backslash alone.
  A field ending in a backslash therefore does not read back: its closing quote reads as an
  escaped quote (`DataExport.TrailingBackslashRunsOn`).
- It throws on an account without a name (`DataExport.DetailedBodyNamelessAt`).

## Model

| member | source | states |
|---|---|---|
| JavaText.NarrowToInt32 | src/main/java/org/example/UserData.java:61 | the `(int)` cast keeps the value modulo 2^32 and leaves values already in `int` range unchanged |
| JavaText.TruncDiv | src/main/java/org/example/UserData.java:61 | whole days between two times truncate toward zero: the quotient brackets the dividend from below for positive and from above for negative differences |
| JavaText.DecimalStringShape | src/main/java/org/example/UserData.java:120 | a `long` concatenated into a string is digits, after a minus sign when negative |
| JavaText.ParseDecimalOfDecimalString | src/main/java/org/example/DataExporter.java:77 | every integer written in decimal reads back as itself |
| JavaText.DecimalStringInjective | src/main/java/org/example/DataExporter.java:77 | two different uids never print the same |
| JavaText.ParseInt | src/main/java/org/example/MainApp.java:544 | `Integer.parseInt` succeeds with the numeral's value when it is a decimal numeral in `int` range, and only then |
| JavaText.ParseIntOfDecimalString | src/main/java/org/example/MainApp.java:358 | a number typed as its decimal spelling parses back to itself |
| JavaText.Trim | src/main/java/org/example/MainApp.java:544 | `trim()` is the middle of the string after removing exactly the characters up to the space (`<= ' '`) from both ends: what it removed are all such characters, and what is left starts and ends with another character |
| JavaText.TrimClean | src/main/java/org/example/MainApp.java:544 | a string with no character up to the space is its own trimmed form |
| JavaText.JoinSnoc | src/main/java/org/example/DataExporter.java:153 | `String.join` puts the separator only between neighbours |
| JavaText.JoinAvoids | src/main/java/org/example/DataExporter.java:153 | joining introduces no character absent from the separator and the parts |
| Users.CalculateInactiveDays | src/main/java/org/example/UserData.java:50-62 | timestamp 0 gives `Integer.MAX_VALUE`; otherwise the truncated day difference narrowed to `int`, or no value exactly where the date conversion throws |
| Users.NewWithVideos | src/main/java/org/example/UserData.java:25-35 | the record copies its arguments, a null tag list becomes empty, it has uploads and its day count; it fails exactly when the day count throws |
| Users.NewNoVideos | src/main/java/org/example/UserData.java:38-47 | a record without uploads: title "无视频", empty video id, timestamp 0, `Integer.MAX_VALUE` days |
| Users.VideoUrl | src/main/java/org/example/UserData.java:112-117 | empty exactly when the video id is empty; otherwise the video prefix, the id and a slash |
| Users.SpaceUrl | src/main/java/org/example/UserData.java:119-121 | the profile prefix followed by exactly the uid's `Long.toString` spelling, which reads back as the uid |
| Users.SpaceUrlIdentifiesAccount | src/main/java/org/example/UserData.java:119-121 | accounts with the same profile link have the same uid |
| Users.NoVideosInactiveForEveryThreshold | src/main/java/org/example/UserData.java:65-67 | a record without uploads is inactive for every `int` threshold |
| Users.IsInactiveMonotone | src/main/java/org/example/UserData.java:65-67 | inactive for a threshold implies inactive for every smaller one |
| Users.NullTagsMeanNoTags | src/main/java/org/example/UserData.java:41 | a null tag list yields a record for which `hasTags()` is false |
| Users.ZeroTimestampIsNeverActive | src/main/java/org/example/UserData.java:51-54 | an upload with timestamp 0 still gives `Integer.MAX_VALUE` days |
| Users.InactiveDaysAreCompleteDays | src/main/java/org/example/UserData.java:56-61 | without wrap-around the count is the number of complete 24-hour periods, negative for an upload in the future |
| Users.JustAfterMidnightIsZeroDays | src/main/java/org/example/UserData.java:56-61 | days are elapsed 24-hour periods on the local time line, not calendar-date changes |
| Classification.MapKeysAreIds | src/main/java/org/example/DataProcessingTask.java:90-98 | both identity maps hold exactly the ids of the list |
| Classification.MapsAreLastWriteWins | src/main/java/org/example/DataProcessingTask.java:96-97 | each id maps to the name and tags of its last record |
| Classification.ClassifyEntry | src/main/java/org/example/DataProcessingTask.java:196-235 | a record with uploads exactly when the payload has a first upload whose time converts, built from that upload; otherwise a record without uploads; name and tags from the maps; the days since the first upload are the converted day count of its publication time |
| Classification.SplitIsFilter | src/main/java/org/example/DataProcessingTask.java:190-246 | `allUsers` is the records with uploads and `usersWithNoVideos` the records without, each in entry order |
| Classification.UnknownIdHasNoNameOrTags | src/main/java/org/example/CacheLoadingTask.java:109-112 | an entry whose id is in neither identity map gets a record with a null name and no tags |
| Classification.ClassifyAll | src/main/java/org/example/DataProcessingTask.java:196 | one outcome per entry, each the entry's own classification, in entry order |
| Classification.ClassifyProperties | src/main/java/org/example/DataProcessingTask.java:190-246 | one record per entry, uids equal to the entry ids as a multiset, no record without uploads before one with, every record valid; the result is the records with uploads in entry order followed by the others in entry order |
| Classification.Classify | src/main/java/org/example/DataProcessingTask.java:190-246 | `processUserData`'s result: one record per entry |
| Classification.AddEntry | src/main/java/org/example/DataProcessingTask.java:200-235 | the loop body appends the entry's record to exactly the list its classification names |
| ProcessingTask.BatchesConcat | src/main/java/org/example/DataProcessingTask.java:113-117 | the batches put together are the id list |
| ProcessingTask.BatchesShape | src/main/java/org/example/DataProcessingTask.java:113-117 | every batch but the last holds `batchSize` ids and the last between 1 and `batchSize` |
| ProcessingTask.Batches | src/main/java/org/example/DataProcessingTask.java:113-117 | the batches formed from the ids: no more batches than ids, each holding between 1 and `batchSize` ids |
| ProcessingTask.BatchCount | src/main/java/org/example/DataProcessingTask.java:113-118 | the number of batches is the ceiling of ids over `batchSize` |
| ProcessingTask.FetchedLength | src/main/java/org/example/DataProcessingTask.java:140-163 | one entry per successful request, so never more entries than ids |
| ProcessingTask.FetchedIdsAmongRequested | src/main/java/org/example/DataProcessingTask.java:140-163 | the fetched ids are among the requested ids, counted with multiplicity |
| ProcessingTask.FetchedAllSucceed | src/main/java/org/example/DataProcessingTask.java:140-150 | when every request succeeds the entries carry exactly the requested ids in order |
| ProcessingTask.Fetched | src/main/java/org/example/DataProcessingTask.java:140-163 | the entries added by the requests, in request order: never more than the ids |
| ProcessingTask.DataProcessingTask.constructor | src/main/java/org/example/DataProcessingTask.java:66-74 | the batch size is the argument raised to at least 1 |
| ProcessingTask.DataProcessingTask.WithDefaults | src/main/java/org/example/DataProcessingTask.java:62-64 | the short constructor uses batches of 2 |
| ProcessingTask.DataProcessingTask.ParseIdentities | src/main/java/org/example/DataProcessingTask.java:86-98 | every record's id is kept in order, duplicates included; the maps are the last-write-wins maps |
| ProcessingTask.DataProcessingTask.FetchAll | src/main/java/org/example/DataProcessingTask.java:109-176 | the entries are those of the successful requests in order; the count reaches the number of ids; the batches formed are the fixed-size slices; one pause between consecutive batches |
| ProcessingTask.DataProcessingTask.RequestBatch | src/main/java/org/example/DataProcessingTask.java:122-164 | one batch adds the entries of its successful requests and counts every request |
| ProcessingTask.DataProcessingTask.ProcessBatch | src/main/java/org/example/DataProcessingTask.java:117-175 | closing a full or last batch: it joins the batches formed so far, its requests' entries are added and counted, and a pause follows unless it ends the list |
| ProcessingTask.DataProcessingTask.ProcessUserData | src/main/java/org/example/DataProcessingTask.java:190-246 | the two lists joined are the classification of the entries |
| ProcessingTask.DataProcessingTask.DoInBackground | src/main/java/org/example/DataProcessingTask.java:77-188 | the result classifies the fetched entries; it has one record per successful request and its uids are among the listed ids |
| CacheLoading.ChooseIdentityFile | src/main/java/org/example/CacheLoadingTask.java:41-58 | the file beside the cache wins, then the working directory, then the user's pick; with none of them loading fails |
| CacheLoading.ReadIdsFailure | src/main/java/org/example/CacheLoadingTask.java:86-87 | reading ids fails exactly when some entry's `mid` is unreadable, and at the first such entry |
| CacheLoading.ReadIdsSuccess | src/main/java/org/example/CacheLoadingTask.java:86-88 | a successful read keeps every entry with its id and payload, in order |
| CacheLoading.ReadIds | src/main/java/org/example/CacheLoadingTask.java:86-87 | reading the ids: on success one entry per cache entry, on failure the position of an entry whose `mid` is unreadable |
| CacheLoading.ReadIdsStep | src/main/java/org/example/CacheLoadingTask.java:86-87 | one more entry: an unreadable id fails the whole read there, a readable one extends it by its entry |
| CacheLoading.LoadResult | src/main/java/org/example/CacheLoadingTask.java:80-136 | the cache path's result: one record per cache entry, or the error naming an entry whose `mid` is unreadable |
| CacheLoading.CacheAgreesWithFreshFetch | src/main/java/org/example/CacheLoadingTask.java:80-136 | replaying a cache of fetched entries yields the same records as the fresh fetch |
| CacheLoading.LoadResultProperties | src/main/java/org/example/CacheLoadingTask.java:128-135 | a successful load has one record per cache entry, uids equal to the cached ids as a multiset, and records with uploads first; the result is the records with uploads in cache order followed by the others in cache order, record i being the classification of cache entry i |
| CacheLoading.BuildMaps | src/main/java/org/example/CacheLoadingTask.java:67-74 | the maps are the last-write-wins maps of the identity list |
| CacheLoading.ProcessUserData | src/main/java/org/example/CacheLoadingTask.java:80-136 | the replay loop returns the load result: an error at the first unreadable id, else the classification |
| CacheLoading.DoInBackground | src/main/java/org/example/CacheLoadingTask.java:32-78 | without an identity file loading fails; otherwise the load result for the maps built from that file |
| DataExport.ParseExportType | src/main/java/org/example/DataExporter.java:38-62 | a combo label selects its mode; any other string is unsupported |
| DataExport.ParseLabel | src/main/java/org/example/MainApp.java:183 | each combo entry selects its own mode |
| DataExport.SelectedAndAllKeepEveryone | src/main/java/org/example/DataExporter.java:39-45 | "selected" and "all" export the list as given |
| DataExport.TaggedAndUntaggedPartition | src/main/java/org/example/DataExporter.java:46-59 | "untagged" keeps only users without tags and "tagged" only users with tags, each in order, together every user once |
| DataExport.SelectUsers | src/main/java/org/example/DataExporter.java:36-62 | the `switch` yields the mode's selection |
| DataExport.SelectionStep | src/main/java/org/example/DataExporter.java:36-62 | looking at one more user appends it to the selection exactly when the mode keeps it |
| DataExport.Validate | src/main/java/org/example/DataExporter.java:26-66 | no data, not a directory, unsupported type and no matching users, each exactly in its case and in that order; otherwise the non-empty selection |
| DataExport.WriteCompact | src/main/java/org/example/DataExporter.java:74-84 | the write loop produces the uids joined by commas |
| DataExport.CompactRoundTrip | src/main/java/org/example/DataExporter.java:74-84 | the compact file reads back as exactly the uids in order, with one comma fewer than users |
| DataExport.EscapeQuoteFree | src/main/java/org/example/DataExporter.java:152 | a field without quotes is written unchanged |
| DataExport.Escape | src/main/java/org/example/DataExporter.java:152-155 | `replace("\"", "\\\"")` adds exactly one character per quote |
| DataExport.EscapedQuotesArePreceded | src/main/java/org/example/DataExporter.java:152 | every quote of an escaped field has a backslash before it |
| DataExport.UnescapeEscape | src/main/java/org/example/DataExporter.java:152 | an escaped field reads back as the original |
| DataExport.QuotedFieldOfEscape | src/main/java/org/example/DataExporter.java:150-155 | an escaped field followed by its closing quote reads back as the field, stopping right after that quote, when the field does not end in a backslash |
| DataExport.RowNameField | src/main/java/org/example/DataExporter.java:150-155 | in a row the escaped name follows the uid and an opening quote, and is followed by its closing quote and the rest of the row |
| DataExport.RowNameReadsBack | src/main/java/org/example/DataExporter.java:150-155 | a name that does not end in a backslash reads back from its row as it was |
| DataExport.TrailingBackslashRunsOn | src/main/java/org/example/DataExporter.java:152 | the name `a\` reads back from its row as `a",`: its closing quote is taken for an escaped quote |
| DataExport.EscapeAvoidsNewline | src/main/java/org/example/DataExporter.java:152 | escaping introduces no line break |
| DataExport.Row | src/main/java/org/example/DataExporter.java:150-155 | a row starts with the uid in decimal, then a comma and the name's opening quote |
| DataExport.HeaderIsOneLine | src/main/java/org/example/DataExporter.java:147 | the header is one line |
| DataExport.RowIsOneLine | src/main/java/org/example/DataExporter.java:150-155 | a row of a user whose fields hold no line break is one line |
| DataExport.DetailedLineCount | src/main/java/org/example/DataExporter.java:146-157 | such users give a detailed file of the header plus one line per user |
| DataExport.DetailedBodyAllNamed | src/main/java/org/example/DataExporter.java:146-157 | users who all have names give the header followed by their rows |
| DataExport.DetailedBodyNamelessAt | src/main/java/org/example/DataExporter.java:152 | the first user without a name makes the detailed export fail with that user's uid |
| DataExport.DetailedBody | src/main/java/org/example/DataExporter.java:146-157 | the detailed file succeeds exactly when no user lacks a name; it starts with the header; a failure names a user without a name |
| DataExport.WriteDetailed | src/main/java/org/example/DataExporter.java:146-157 | the write loop gives the detailed body, or the error of the first nameless user |
| DataExport.CompactExportContents | src/main/java/org/example/DataExporter.java:68-86 | a compact export is named by its timestamp, is never empty and reads back as the selected uids |
| DataExport.DetailedExportContents | src/main/java/org/example/DataExporter.java:140-157 | a detailed export is named by its timestamp and holds the header and one row per selected user, all of them named and at least one |
| DataExport.ExportInactiveUsers | src/main/java/org/example/DataExporter.java:26-87 | `exportInactiveUsers` gives the checks' error or the compact file of the selection |
| DataExport.ExportDetailedInactiveUsers | src/main/java/org/example/DataExporter.java:98-160 | `exportDetailedInactiveUsers` gives the checks' error, the nameless-user error, or the detailed file |
| Window.ValidThreshold | src/main/java/org/example/MainApp.java:356-365 | the buttons accept a threshold exactly when it is a positive `int`, the same value the live filter reads |
| Window.FilterThreshold | src/main/java/org/example/MainApp.java:544-547 | the live filter reads the trimmed field as a decimal `int` that is not negative, and otherwise ignores it |
| Window.DecimalStringIsTrimmed | src/main/java/org/example/MainApp.java:544 | trimming leaves a typed number unchanged |
| Window.TypedNumberParses | src/main/java/org/example/MainApp.java:544 | a typed `int` parses back as itself after trimming |
| Window.TypedNumberReadsBack | src/main/java/org/example/MainApp.java:544 | a typed number reads back as itself in every field, with the sign rules of each |
| Window.DefaultThresholdIsValid | src/main/java/org/example/MainApp.java:82 | the threshold field starts as a valid 365 days |
| Window.DefaultBatchSizeIsValid | src/main/java/org/example/MainApp.java:252 | the batch-size field starts as a batch size of 2 |
| Window.ThresholdViewMembers | src/main/java/org/example/MainApp.java:549-560 | a user is shown exactly when listed and, for a positive threshold, inactive at least that long |
| Window.ThresholdView | src/main/java/org/example/MainApp.java:549-560 | the filtered list: everyone for threshold 0, otherwise only users inactive at least that long, never more than the list |
| Window.ThresholdViewNarrows | src/main/java/org/example/MainApp.java:549-560 | a larger threshold shows an ordered sublist of a smaller one's, never more than all users |
| Window.ThresholdViewIdempotent | src/main/java/org/example/MainApp.java:549-560 | filtering the shown users again changes nothing |
| Window.CountLabelReadsBack | src/main/java/org/example/MainApp.java:593 | different counts give different labels |
| Window.CountLabel | src/main/java/org/example/MainApp.java:593 | the label starts with the shown count in decimal followed by a slash |
| Window.FirstWithUid | src/main/java/org/example/MainApp.java:613-618 | the lookup finds a listed user with the uid, and finds none exactly when no user has it |
| Window.FirstWithUidOfMember | src/main/java/org/example/MainApp.java:613-618 | with unique uids, looking up a user's uid finds that user |
| Window.LookupRowsBounded | src/main/java/org/example/MainApp.java:600-622 | the rows map back to listed users, at most one per row |
| Window.LookupRowsFindsEveryRow | src/main/java/org/example/MainApp.java:600-622 | when every row's uid is listed, each row yields a user with that row's uid, in row order |
| Window.LookupRowsOfShownUsers | src/main/java/org/example/MainApp.java:600-622 | with unique uids and listed rows, the lookup returns exactly the users the rows show |
| Window.SelectedModelRows | src/main/java/org/example/MainApp.java:639-644 | each selected view row is converted to its model row, in selection order |
| Window.ExportClickOutcomes | src/main/java/org/example/MainApp.java:494-532 | from the window the exporter never reports missing data; "selected" and "all" can fail only on the directory; an export holds exactly the users found for the rows |
| Window.BatchSizeSetting | src/main/java/org/example/MainApp.java:376-383 | the batch size handed on is the trimmed field's `int` value when it parses, and 2 otherwise |
| Window.ProcessClick | src/main/java/org/example/MainApp.java:350-383 | processing starts exactly with a chosen file and a positive threshold, which it passes on with the batch size read from its field; otherwise the missing file or the invalid threshold is reported, in that order |
| Window.LoadClick | src/main/java/org/example/MainApp.java:424-447 | loading starts exactly with a picked, existing cache file and a positive threshold, which it passes on; otherwise the cancelled chooser, the missing file or the invalid threshold is reported, in that order |
| Window.MainApp.constructor | src/main/java/org/example/MainApp.java:119 | no data yet, an empty table, the label counting 0 of 0, threshold "365" and batch size "2" |
| Window.MainApp.DisplayFilteredResults | src/main/java/org/example/MainApp.java:569-594 | the table shows the given users and the label counts them against the full list |
| Window.MainApp.UpdateInactiveDaysFilter | src/main/java/org/example/MainApp.java:538-567 | with data and a threshold of at least 0 the table shows that threshold's view, never more than all users; otherwise nothing changes |
| Window.MainApp.FilterUsers | src/main/java/org/example/MainApp.java:549-560 | the filter loop yields the threshold's view |
| Window.MainApp.SetInactiveDaysText | src/main/java/org/example/MainApp.java:85-100 | every edit of the threshold field re-runs the filter |
| Window.MainApp.DisplayResults | src/main/java/org/example/MainApp.java:659-692 | an empty or null list changes nothing; otherwise it becomes the full list and is shown whole |
| Window.MainApp.TaskDone | src/main/java/org/example/MainApp.java:388-415 | a failed task changes nothing; a result becomes the full list, marks data processed and is shown filtered by the threshold |
| Window.MainApp.ProcessClicked | src/main/java/org/example/MainApp.java:348-384 | the handler's outcome is the process checks' outcome, including the threshold and the batch size handed to the task, and the table is cleared exactly when processing starts |
| Window.MainApp.LoadClicked | src/main/java/org/example/MainApp.java:424-456 | the handler's outcome is the load checks' outcome, and the table is cleared exactly when loading starts |
| Window.MainApp.FindUser | src/main/java/org/example/MainApp.java:613-618 | the inner loop stops at the first user with the uid |
| Window.MainApp.GetCurrentTableUsers | src/main/java/org/example/MainApp.java:600-622 | every table row in view order, mapped back to the first user with its uid |
| Window.MainApp.GetSelectedTableUsers | src/main/java/org/example/MainApp.java:628-657 | the selected rows in selection order, mapped back to users |
| Window.MainApp.ExportClicked | src/main/java/org/example/MainApp.java:494-532 | the export handler's outcome, whose properties `Window.ExportClickOutcomes` states |

## Left out

- The Swing user interface is not modelled: dialogs, buttons, enabling and disabling, fonts, the progress bar and status texts.
  - A file chooser's answer, a file's existence and the table's view-to-model order are parameters.
- The table's `RowSorter` sort by inactive days is not modelled; the view order is a parameter.
- Table rows are modelled as the users they display, not as the seven rendered cells.
- HTTP requests are not modelled: the headers, timeouts and JSON parsing of a response.
  - Each request's outcome is an input.
- Reading and writing the JSON and text files is not modelled. The model produces the values that would be written.
- Jackson's coercion of unusual JSON values is not modelled: a numeric `name`, a non-list `tag`, or numbers beyond `long`.
  - An absent archive field is modelled as "" or 0, as `asText` and `asLong` give.
- `null` elements inside a tag list are not modelled.
- `SwingWorker` threading, `publish`/`process` and `Thread.sleep` are not modelled, and neither is the `double` batch interval and its parsing.
  - The model counts the pauses instead.
- Time-zone rules are not modelled. The zone is a fixed offset in `Clock`, and one clock reading stands for each pass.
- DataExport.ExportDetailedInactiveUsers: the model does not capture the partly written file that Java leaves behind when a nameless user makes the loop throw.
  - Java writes the header before the rows; the model prepends it to the rows at the end.
- DataExport.ExportInactiveUsers: does not test the directory itself; whether the target exists and is a directory is a boolean parameter, as in `ExportDetailedInactiveUsers`.
- The timestamp in the file name is not formatted from a clock: it is a parameter.
- JavaText.ParseInt: recognises only ASCII digits, whereas `Integer.parseInt` also accepts other Unicode decimal digits.
- `String.format("%d")` is modelled with ASCII digits, without locale-specific digits.
- The account record is a value, not an object: its fields are written only while it is constructed, so the field assignments of the constructors and of `calculateInactiveDays` become functions that return the finished record.
- The two identical inner lookup loops of `getCurrentTableUsers` and `getSelectedTableUsers` are modelled by one method, `Window.MainApp.FindUser`.
- The identical loop bodies of the two `processUserData` copies are modelled by one method, `Classification.AddEntry`.
- The cache file written after a fresh fetch is not modelled.
  - Its agreement with the fresh result is `CacheLoading.CacheAgreesWithFreshFetch`.
- `toString`, `hasTag` and the getters are not modelled, since nothing in the modelled logic depends on them.
- ProcessingTask.DataProcessingTask.ParseIdentities: an identity record always carries a readable id.
  - In Java a record whose `mid` is missing or not a number throws outside any `try` (DataProcessingTask.java:91) and fails the whole task.
- CacheLoading.BuildMaps: an identity record always carries a readable id.
  - In Java a record whose `mid` is missing or not a number throws outside any `try` (CacheLoadingTask.java:68) and fails the whole load.
- Window.MainApp.TaskDone: says nothing about the table when the threshold field is unreadable and the result list is empty.
  - In that case Java only shows a message.
