# Trino ODBC driver: a verified model

This project models the hard parts of the Trino ODBC driver in Dafny and proves what they are relied on for.

**The prefetching pager.** A query is read page by page. While the application reads one page, a background
thread asks the server for the next one and hands it over through a one-slot queue with a mutex and a condition
variable. `pager.dfy` is this protocol as a step system: every statement of the main thread and of the fetch
threads is one step, spurious wake-ups included, and the server is a finite chain of pages that may end in a
failure. `server_chain.dfy` defines the one flat row sequence a query stands for: the rows up to the first failing,
empty or last page behind the first page with rows. It is all the rows of the server exactly when no page with rows
follows an empty one (`ServerChain.EverythingIff`). The theorems hold for every interleaving of a first execution: the
rows of the flat sequence are handed out once, in order and without loss; one page is in transit; the shared request
is never rewritten under a fetch thread; every call takes a bounded number of steps, three more for each spurious
wake-up; teardown leaves no thread. A deadlock exists if and only if an empty page comes after the first non-empty one
(`PagerDeadlock.DeadlockIff`), because such a page ends the data but leaves the fetch flag set; a single fetch can get
stuck if and only if it is called behind that page, and then it never returns (`PagerDeadlock.FetchHangsIff`,
`PagerDeadlock.FetchNeverReturns`). The class `DataQuery` is the same code as an object with its fields, waits and
joins; each of its methods is proved to be a run of the step system and to hand out the flat sequence.

**Block fetch.** `Statement::InternalFetchRow` steers every bound buffer to element i and fetches row i into it.
Application memory is an array of bytes, and a bound column is a window into it. A Put stays inside its slot, so
after a block every slot still holds its row; statuses, counter and return code are determined; block after block
delivers consecutive stretches of the flat sequence.

**Printers and parsers.** The nested value renderer against its recursive specification and its unique readability;
the interval formats that are printed in one file and parsed in another; the connection string reader, which erases
segments from the right, against a split, and its round trip with the printer; LIKE patterns as regular expressions.
Each round trip is stated with its exact condition. The letter case of keywords does not matter
(`AttributeCase.KeywordCase`), and every printed 64-bit number is read back into a number column
(`NumberReading.NumberInElement`).

**Catalog queries and cursor names.** The table and column queries list what the server's SHOW and describe
statements return, fetched through `DataQuery` itself; databases as schemas and databases as catalogs mirror each
other. The cursor name set always agrees with the statement-to-name map.

## Reading order

- `server_chain.dfy`, `pager.dfy`: the protocol. `pager_invariant.dfy`, `pager_delivery.dfy`: the invariant and that
  every step keeps it. `pager_safety.dfy`, `pager_liveness.dfy`, `pager_deadlock.dfy`: the theorems.
- `data_query_steps.dfy`, `trino_cursor.dfy`, `data_query.dfy`: the query object.
- `app_buffers.dfy`, `slots.dfy`, `number_reading.dfy`, `renderer.dfy`, `rendering.dfy`, `readability.dfy`,
  `row_reading.dfy`, `block_fetch.dfy`, `statement.dfy`: from a cell to the application's arrays.
- `decimals.dfy`, `interval.dfy`: interval text. `config_text.dfy`, `configuration.dfy`, `connection_string.dfy`,
  `connection_string_parser.dfy`, `connect_round_trip.dfy`, `attribute_case.dfy`: the connection string.
  `letter_case.dfy`: equality up to letter case. `like_pattern.dfy`: LIKE.
- `catalog_lists.dfy`, `table_query.dfy`, `table_metadata_query.dfy`, `column_query.dfy`, `column_metadata_query.dfy`:
  catalog queries. `cursor_names.dfy`: cursor names. `options.dfy`, `datum.dfy`: shared types.

## Where the code differs from its own documentation, or from what one expects

- An empty page after the first non-empty one ends the result, but a further fetch then waits for ever
  (`PagerDeadlock.FetchNeverReturns`). `DataQuery.Serves` is the condition a caller needs.
- Such a page ends the result even when it names a next token, so the rows behind it are never handed out
  (`ServerChain.RowsBehindEmptyPage`; exactly when nothing is lost: `ServerChain.EverythingIff`).
- A text with `;` never survives the connection string, although a value with a space is braced and the ODBC
  Programmer's Reference, SQLDriverConnect, lets braces protect it (`ConnectRoundTrip.DelimiterNeverSurvives`).
- A repeated keyword is decided by its leftmost accepted occurrence, in the SQLDriverConnect way, although the code
  reads from the right (`ConnectionStrings.LeftmostWins`).
- The limit of 18 characters for a cursor name does not apply to a name passed as a C string (`CursorNames.LimitIff`).
- Null, the empty array and the text "-", and nothing else, render as a dash (`Readability.DashIff`), and null is not
  reported through the length indicator (`Slots.NullIndicator`).
- An unescaped "." of a LIKE pattern matches any character afterwards (`LikePatterns.DotIsWild`); exactly which
  patterns keep their meaning is `LikePatterns.MeaningIff`.
- An escaped backslash or `]` is put into a bracket that a POSIX grammar reads as intended and ECMAScript does not
  (`LikePatterns.MeaningIff` is stated for both).
- The ordinal position of a column counts the wanted columns only, so a single wanted column is always number one
  (`ColumnQueries.SecondColumnIsFirst`; exactly when the positions are right: `ColumnQueries.OrdinalIff`,
  `ColumnQueries.AllOrdinalsIff`).
- A failed page behind the first one, rows behind an empty page and an unreadable row cut a list of databases or tables
  short without a warning (`CatalogLists.FailureIsSilent`, `CatalogLists.GapIsSilent`; exactly when the list is whole:
  `CatalogLists.WholeListIff`).
- The row number of a table list is 1 before anything has been fetched
  (`TableMetadataQueries.TableMetadataQuery.RowNumber`).

## Model

| member | source | states |
|---|---|---|
| ServerChain.SpineStep | src/odbc/src/query/data_query.cpp:170-208 | A non-empty page with a next token is followed by exactly the page of that token; the rows before that page grow by this page |
| ServerChain.EverythingIff | src/odbc/src/query/data_query.cpp:170-177 | The flat sequence is a prefix of all rows of all pages, and all of them exactly when no page with rows follows an empty page behind the first one |
| ServerChain.RowsBehindEmptyPage | src/odbc/src/query/data_query.cpp:173-177 | A row, an empty page that names a next token, another row: the second row is never handed out |
| PagerInvariant.InitInv | src/odbc/src/query/data_query.cpp:34-48 | A new query object satisfies the invariant of every run |
| PagerInvariant.PushShape | src/odbc/src/query/data_query.cpp:137-149 | When a fetch thread reaches its push the queue is empty, and pushing keeps one page in transit |
| PagerInvariant.HandleShape | src/odbc/src/query/data_query.cpp:160-188 | Failure, empty, last and further page each leave threads, queue, flag and token in step |
| PagerDelivery.NextPage | src/odbc/src/query/data_query.cpp:179-182 | Moving to the next page continues the flat sequence where the old page ended |
| PagerDelivery.NoMorePages | src/odbc/src/query/data_query.cpp:160-177 | A switch that finds a failure or an empty page happens only after the whole flat sequence was visited |
| PagerDelivery.LastPageDone | src/odbc/src/query/data_query.cpp:231-236 | Running off a page without a next token happens only after the whole flat sequence was visited |
| PagerDelivery.StepKeeps | src/odbc/src/query/data_query.cpp:130-317 | Every statement of either thread, and every spurious wake-up, keeps the invariant |
| PagerDelivery.RunKeeps | src/odbc/src/query/data_query.cpp:130-317 | Every interleaving keeps the invariant |
| PagerDelivery.ReachableInv | src/odbc/src/query/data_query.cpp:130-404 | Every state that any run of a first execution can reach satisfies the invariant |
| PagerSafety.DeliveryInOrder | src/odbc/src/query/data_query.cpp:130-258 | In every interleaving the visited rows are a prefix of the flat sequence; with an open cursor, visited rows and remaining rows together are the whole sequence, so nothing is lost or repeated |
| PagerSafety.NothingLost | src/odbc/src/query/data_query.cpp:179-181 | Visited rows followed by the rest of the current page and all later pages are the flat sequence |
| PagerSafety.CurrentIsNext | src/odbc/src/query/data_query.cpp:222-257 | The row about to be read is the next row of the flat sequence |
| PagerSafety.FetchVisitsNextRow | src/odbc/src/query/data_query.cpp:239-257 | A fetch that reaches a row visits exactly the next row of the flat sequence, and reports an error exactly when the row cannot be converted |
| PagerSafety.FetchEndsOnlyWhenDone | src/odbc/src/query/data_query.cpp:222-237 | The first end of data or failure of a later page is reported only when every row has been visited, and it is a failure exactly when the sequence ends in one |
| PagerSafety.OneInTransit | src/odbc/src/query/data_query.cpp:137-149 | Unpushed pages and queue length add up to at most one, so the fetch thread never sleeps in its wait and never drops a page at its emptiness test |
| PagerSafety.MutualExclusion | src/odbc/src/query/data_query.cpp:137-158 | The main thread and the fetch threads are never inside the mutex together |
| PagerSafety.RequestIsExclusive | src/odbc/src/query/data_query.cpp:184-207 | At most one fetch thread exists, the token of the shared request is rewritten only while none exists, and over a whole run the tokens 0, 1, 2, ... are each asked for once |
| PagerSafety.SafeTeardown | src/odbc/src/query/data_query.cpp:50-55 | No thread exists while `result_` is null, and closing ends with no thread |
| PagerSafety.RowNumberIsGlobal | src/odbc/src/query/data_query.cpp:329-341 | Row number plus failed conversions is the size of all earlier pages plus the position in the current page |
| PagerSafety.StandsOnLastRow | src/odbc/src/query/data_query.cpp:260-286 | Between calls the cursor stands on the row visited last, or before the first row of the sequence |
| PagerLiveness.StepDecreases | src/odbc/src/query/data_query.cpp:130-317 | Every statement of a running call lowers one measure, whatever thread takes it |
| PagerLiveness.SpuriousRaises | src/odbc/src/query/data_query.cpp:155 | A spurious wake-up raises the measure by at most two |
| PagerLiveness.CallsTerminate | src/odbc/src/query/data_query.cpp:152-317 | Under every scheduler a call takes at most the number of pages plus 58 steps, and three more for each spurious wake-up |
| PagerLiveness.WorkerReady | src/odbc/src/query/data_query.cpp:130-150 | A fetch thread that has not exited can always take a step unless the main thread holds the mutex |
| PagerLiveness.BlockedMeansDrained | src/odbc/src/query/data_query.cpp:152-158 | The only stuck state is the main thread asleep in the wait of `SwitchCursor` behind an empty page |
| PagerDeadlock.ExecuteCompletes | src/odbc/src/query/data_query.cpp:347-404 | From any point of an execution with rows some schedule ends the call with an open cursor |
| PagerDeadlock.FetchCompletes | src/odbc/src/query/data_query.cpp:213-237 | Any fetch can be run until it returns or is stuck |
| PagerDeadlock.FetchingStrands | src/odbc/src/query/data_query.cpp:173-177 | When an empty page ends the sequence, fetching on and on reaches a stuck state |
| PagerDeadlock.DeadlockIff | src/odbc/src/query/data_query.cpp:152-208 | A run that gets stuck exists if and only if an empty page comes after the first non-empty one |
| PagerDeadlock.CallsEndIdle | src/odbc/src/query/data_query.cpp:213-317 | Without such a page every run of a started call, spurious wake-ups included, keeps that bound, and it is either finished or can go on |
| PagerDeadlock.FetchNeverReturns | src/odbc/src/query/data_query.cpp:173-177 | After an empty page has ended the data no run of a further fetch ever returns |
| PagerDeadlock.FetchHangsIff | src/odbc/src/query/data_query.cpp:152-177 | A fetch can get stuck if and only if it is called behind the empty page |
| TrinoCursors.TrinoCursor.Increment | src/odbc/src/timestream_cursor.cpp:41-53 | Moves one row on and tells whether there is a row at the new position; the iterator stays one behind the position |
| TrinoCursors.TrinoCursor.constructor | src/odbc/src/timestream_cursor.cpp:26-34 | A new cursor stands before the first row of its page |
| DataQuerySteps.Advance | src/odbc/src/query/data_query.cpp:130-317 | A statement of the main thread extends the run and keeps the invariant |
| DataQuerySteps.HandledDone | src/odbc/src/query/data_query.cpp:160-177 | When the popped page ends the call, all rows were visited and the result tells failure from end of data |
| DataQuerySteps.AlwaysLive | src/odbc/src/query/data_query.cpp:173-177 | Unless an empty page cuts the sequence short, a pending fetch always has a page coming |
| DataQuerySteps.DrainedIff | src/odbc/src/query/data_query.cpp:170-177 | Being behind the empty page can be read off the flag and the last result |
| DataQuerySteps.FirstAnswer | src/odbc/src/query/data_query.cpp:359-388 | What the answer that ends the request loop says about the whole sequence |
| DataQueries.DataQuery.constructor | src/odbc/src/query/data_query.cpp:34-48 | The initial state of the step system |
| DataQueries.DataQuery.StepThread | src/odbc/src/query/data_query.cpp:130-150 | A fetch thread that can run takes one statement: a run of the step system, and its rank sinks |
| DataQueries.DataQuery.Workers | src/odbc/src/query/data_query.cpp:130-150 | The fetch threads run as far as the scheduler likes and leave the main thread's fields alone |
| DataQueries.DataQuery.Lock | src/odbc/src/query/data_query.cpp:154 | Taking the mutex ends, as the fetch thread leaves it |
| DataQueries.DataQuery.Sleep | src/odbc/src/query/data_query.cpp:155 | The wait of the main thread ends with a notification when a page is coming |
| DataQueries.DataQuery.TakePage | src/odbc/src/query/data_query.cpp:154-158 | Lock, wait, pop, unlock: the outcome taken is the head of the queue and the run goes on |
| DataQueries.DataQuery.HandleOutcome | src/odbc/src/query/data_query.cpp:160-188 | Failure drops the cursor and the flag, an empty page ends the data, any other page gets a fresh cursor on its first row |
| DataQueries.DataQuery.Join | src/odbc/src/query/data_query.cpp:189-198 | Joining ends, with the thread exited and nothing else changed |
| DataQueries.DataQuery.NextThread | src/odbc/src/query/data_query.cpp:189-207 | The old thread is joined and popped, the token set, the next thread started |
| DataQueries.DataQuery.SwitchCursor | src/odbc/src/query/data_query.cpp:152-211 | Either the first row of the next page, or the reported end with all rows visited |
| DataQueries.DataQuery.Position | src/odbc/src/query/data_query.cpp:222-237 | The cursor on the next row, or the reported end |
| DataQueries.DataQuery.FetchNextRow | src/odbc/src/query/data_query.cpp:213-258 | Hands out the next row of the flat sequence, whatever the fetch threads do meanwhile: row, memory, counter and result are determined; with no row left, end of data or the failure once |
| DataQueries.DataQuery.InternalClose | src/odbc/src/query/data_query.cpp:297-317 | Joins every thread, drops result and cursor |
| DataQueries.DataQuery.Close | src/odbc/src/query/data_query.cpp:288-295 | Ends with no thread and nothing left to fetch |
| DataQueries.DataQuery.Cancel | src/odbc/src/query/data_query.cpp:69-106 | A refused cancel changes nothing; an accepted one closes |
| DataQueries.DataQuery.Destroy | src/odbc/src/query/data_query.cpp:50-55 | The destructor closes only when there is a result, and still leaves no thread behind |
| DataQueries.DataQuery.FirstRows | src/odbc/src/query/data_query.cpp:359-388 | The request loop skips empty pages and ends for every chain of pages |
| DataQueries.DataQuery.Execute | src/odbc/src/query/data_query.cpp:57-67 | Everything is still to be fetched; the result is success exactly when there are rows, else it tells failure from no data |
| DataQueries.DataQuery.RowNumber | src/odbc/src/query/data_query.cpp:329-341 | Row number plus failed conversions counts all visited rows |
| DataQueries.DataQuery.GetColumn | src/odbc/src/query/data_query.cpp:260-286 | Reads a column of the row fetched last; no cursor, no row and no such column are told apart. The result is an error exactly for a cell without kind, no data exactly for a row without data, and success with info exactly for an interval buffer or a text that does not fit beside its terminator |
| DataQueries.ColumnReports | src/odbc/src/query/data_query.cpp:483-546 | The conversion result of a cell becomes error, no data, success with info or success by the cell and the buffer alone |
| DataQueries.DataQuery.ServesLive | src/odbc/src/query/data_query.cpp:222-237 | The budget that keeps fetches from waiting for a page that never comes |
| DataQueries.DataQuery.LiveIff | src/odbc/src/query/data_query.cpp:222-237 | The precondition of a fetch excludes exactly the fetches that never return |
| BlockFetch.NextElement | src/odbc/src/statement.cpp:1042-1056 | The fetch for element i sees the i-th row that was left |
| BlockFetch.BlockHeld | src/odbc/src/statement.cpp:1032-1048 | After a block fetch the slot of element j of every bound column holds row j, whatever was read into the other elements |
| BlockFetch.NoOffset | src/odbc/src/statement.cpp:1032-1036 | Without a binding offset the claims about offset 0 apply |
| BlockFetch.OtherElements | src/odbc/src/app/application_data_buffer.cpp:1740-1748 | A byte of the slot of one element lies in no slot of another element, of any column |
| BlockFetch.Chunking | src/odbc/src/statement.cpp:1021-1068 | The k-th block of n delivers exactly rows n(k-1) up to nk: its first elements are good, as many as there are rows, none is bad, and there is none exactly behind the last row, for ever after |
| BlockFetch.MarksElement | src/odbc/src/statement.cpp:1215-1231 | Of every block, failing rows and a failing end included: element i is marked as a row exactly when row i is there and readable, as an error exactly when it is unreadable or the rows end at it in a failure, else as no row |
| BlockFetch.BlockReports | src/odbc/src/statement.cpp:1059-1068 | The counters are the numbers of good and of bad elements; success, success with info, error and no data follow from whether there are good ones and whether there are bad ones |
| Statements.Statement.SetByteOffsets | src/odbc/src/statement.cpp:1032-1036 | Every bound column is shifted by the binding offset |
| Statements.Statement.FetchElement | src/odbc/src/statement.cpp:1043-1053 | One fetch into element i: result, memory and remaining rows |
| Statements.Statement.FetchElements | src/odbc/src/statement.cpp:1042-1056 | The whole loop: statuses, counts, memory and remaining rows |
| Statements.Statement.InternalFetchRow | src/odbc/src/statement.cpp:1021-1068 | Element i is marked by row i, the rows-fetched counter is the number of readable rows of the block, and the return code says whether there were rows and whether there were errors; memory and rows left are determined; without a query an error and a zero counter |
| AppBuffers.CopyText | src/odbc/src/utility.cpp:35-92 | Writes as many characters as fit beside the terminator, the terminator, and nothing else; truncated exactly when some did not fit |
| AppBuffers.PutStrToStrBuffer | src/odbc/src/app/application_data_buffer.cpp:243-295 | Image of the text in the element, its byte length in the indicator, and the truncation result |
| AppBuffers.PutNumToNumBuffer | src/odbc/src/app/application_data_buffer.cpp:205-220 | The number in the width of the buffer type, little-endian, and the width in the indicator |
| AppBuffers.PutStringToBuffer | src/odbc/src/app/application_data_buffer.cpp:414-474 | Text goes to text buffers as text, to integer buffers as the number it starts with |
| AppBuffers.SkipsBlanks | src/odbc/src/app/application_data_buffer.cpp:431-437 | White space in front of a number or field is skipped, and only that |
| NumberReading.ReadsSigned | src/odbc/src/app/application_data_buffer.cpp:431-437 | A text is read as its sign and the digits up to the first other character, clamped to 64 bits, and as 0 when it has no digits |
| NumberReading.ReadsPrinted | src/odbc/src/app/application_data_buffer.cpp:431-437 | Every 64-bit number is read back as printed, with white space in front and anything but a digit behind it; a number beyond is clamped |
| NumberReading.NumberInElement | src/odbc/src/app/application_data_buffer.cpp:421-441 | After a printed number has been put into a number column the element holds it modulo the size of its type, and the indicator that size |
| NumberReading.SurvivesIff | src/odbc/src/app/application_data_buffer.cpp:205-220 | A number survives in a signed element exactly when it is in the range of the type, in an unsigned one exactly when it is not negative and below the size of the type |
| Slots.PutStaysInSlot | src/odbc/src/app/application_data_buffer.cpp:1263-1269 | A Put changes no byte outside its element and its length slot |
| Slots.ElementsApart | src/odbc/src/app/application_data_buffer.cpp:1740-1748 | Slots of different elements of one bound array do not overlap |
| Slots.SlotInArrays | src/odbc/src/app/application_data_buffer.cpp:1740-1748 | Element i of n lies inside the bound arrays |
| Slots.StrideIff | src/odbc/src/app/application_data_buffer.cpp:1833-1893 | The elements of a bound array stay apart exactly when the type has an element size; default and interval types have none |
| Slots.PutHolds | src/odbc/src/app/application_data_buffer.cpp:205-295 | After a Put the slot holds the element image and the length |
| Slots.ConversionSays | src/odbc/src/app/application_data_buffer.cpp:414-474 | A failure exactly for a value without kind, none found exactly for a row without data, and truncation exactly when a text leaves no room for the terminator |
| Slots.ImageMeans | src/odbc/src/utility.cpp:35-92 | A text element byte by byte: the longest prefix that leaves room for the terminator, one byte a character or two with the high one 0, then the terminator |
| Slots.HoldsFrame | src/odbc/src/app/application_data_buffer.cpp:1740-1748 | A slot keeps what it holds while its bytes stay |
| Slots.NullIndicator | src/odbc/src/timestream_column.cpp:74-76 | Reading a null leaves the indicator alone or sets it to the length of a dash, never to SQL_NULL_DATA |
| Slots.NumberReadsBack | src/odbc/src/app/application_data_buffer.cpp:205-220 | The stored bytes are the number modulo the size of its type |
| RowReading.ReadColumns | src/odbc/src/query/data_query.cpp:239-254 | The column loop reads the bound columns in order and stops at the first that fails |
| RowReading.ReadsIff | src/odbc/src/query/data_query.cpp:239-254 | A row is read without error exactly when every bound column has a value kind, whatever memory holds |
| RowReading.RowFrame | src/odbc/src/query/data_query.cpp:239-254 | Reading a row changes nothing outside the slots of its columns |
| RowReading.RowHeld | src/odbc/src/query/data_query.cpp:239-254 | After a successful read each bound slot holds its column of the row |
| Renderer.PopBackJoins | src/odbc/src/timestream_column.cpp:242-255 | Appending a comma after each item and popping the last one is joining by commas |
| Renderer.PopBackJoinsPoints | src/odbc/src/timestream_column.cpp:201-224 | The same for the points of a time series |
| Renderer.ScratchHolds | src/odbc/src/timestream_column.cpp:244-250 | A nested value leaves its text, cut to 1023 characters, as the C string of the scratch buffer |
| Renderer.NestedText | src/odbc/src/timestream_column.cpp:244-250 | A nested value is read back as its cut text |
| Renderer.ParseTimeSeriesType | src/odbc/src/timestream_column.cpp:194-230 | Puts the text of the series |
| Renderer.ParseArrayType | src/odbc/src/timestream_column.cpp:232-262 | Puts the text of the array; an empty array is a dash |
| Renderer.ParseRowType | src/odbc/src/timestream_column.cpp:264-297 | Puts the text of the row; a row without data puts nothing and says so |
| Renderer.ParseDatum | src/odbc/src/timestream_column.cpp:61-82 | The loops write exactly the recursively specified text of the value |
| Rendering.ArrayLength | src/odbc/src/timestream_column.cpp:238-258 | An array of m values renders to at most 1024 m + 1 characters |
| Rendering.NothingTruncated | src/odbc/src/timestream_column.cpp:232-297 | When no nested value reaches 1024 characters the text is the untruncated print of the whole tree |
| Readability.ReadValue | src/odbc/src/timestream_column.cpp:232-297 | A rendered plain value is recovered from any text it starts, together with what follows it |
| Readability.UniquelyReadable | src/odbc/src/timestream_column.cpp:194-297 | Different plain trees of arrays, rows and time series render differently while nothing is truncated |
| Readability.DashIff | src/odbc/src/timestream_column.cpp:61-82 | A value renders as a dash exactly when it is a null, an empty array or the text "-" |
| Intervals.ScanBack | src/odbc/src/timestream_column.cpp:172-185 | A printed field that fits the scanned width is read back whole |
| Intervals.ScanPlus | src/odbc/src/timestream_column.cpp:172-185 | A plus sign counts towards the scanned width, white space in front of it does not |
| Intervals.ScanCut | src/odbc/src/timestream_column.cpp:178-181 | A field that is too long is cut at its width, a digit follows, and the value read is one that would have fitted |
| Intervals.FieldFits | src/odbc/src/app/application_data_buffer.cpp:1055-1060 | Which values fit a printed field of a given width |
| Intervals.DaySecondLength | src/odbc/src/app/application_data_buffer.cpp:1055-1060 | Fields that fit print at most 30 characters into the 32-byte buffer |
| Intervals.DaySecondLayout | src/odbc/src/app/application_data_buffer.cpp:1055-1060 | The printed text by position: the day, two digits each for hour, minute and second, nine for the fraction, zeros in front, with the separators between them |
| Intervals.YearMonthLayout | src/odbc/src/app/application_data_buffer.cpp:973 | The printed text is the two numbers with a minus sign between them |
| Intervals.YearMonthLength | src/odbc/src/app/application_data_buffer.cpp:971-974 | A year-month interval prints at most 23 characters |
| Intervals.YearMonthRoundTrip | src/odbc/src/timestream_column.cpp:172-177 | Reading back the printed year-month form restores all 32-bit pairs, negative ones included |
| Intervals.DaySecondRoundTripIff | src/odbc/src/timestream_column.cpp:178-185 | Reading back the printed day-second form restores the interval if and only if hour, minute and second lie in -9..99 and the fraction in -99999999..999999999 |
| Intervals.PutInterval | src/odbc/src/app/application_data_buffer.cpp:1054-1078 | Bounded copy with terminator; the indicator gets the whole length |
| Intervals.PutIntervalWide | src/odbc/src/app/application_data_buffer.cpp:1080-1102 | The same into a wide buffer; the indicator still counts characters |
| Intervals.BufferRoundTripIff | src/odbc/src/app/application_data_buffer.cpp:1046-1078 | The C string in a buffer of at least 32 bytes reads back as the interval under the same exact condition |
| ConfigText.SplitLast | src/odbc/src/config/connection_string_parser.cpp:63-69 | Searching the delimiter from the right finds the last part of the split |
| ConfigText.SplitJoin | src/odbc/src/config/connection_string_parser.cpp:52-99 | Splitting undoes joining |
| ConfigText.TrimmedIff | src/odbc/src/utility.cpp:341-351 | A text trims to itself exactly when no white space is at its ends |
| ConfigText.TrimTakes | src/odbc/src/utility.cpp:341-351 | Trimming takes off the white space at both ends, all of it and nothing else |
| ConfigText.SameLowerIff | src/odbc/src/config/connection_string_parser.cpp:123 | Two texts have the same lower case exactly when they are equal up to letter case |
| ConfigText.LowerTrim | src/odbc/src/authentication/auth_type.cpp:25 | Lower case and trimming commute |
| Configurations.Configuration.SetText | src/odbc/src/config/configuration.cpp:100-142 | A setter changes its own attribute and no other |
| Configurations.Configuration.SetLogPath | src/odbc/src/config/configuration.cpp:239-244 | A path that is no directory is refused and changes nothing |
| Configurations.Configuration.SetAuthType | src/odbc/src/config/configuration.cpp:212-214 | Changes its own attribute and no other |
| Configurations.Configuration.SetLogLevel | src/odbc/src/config/configuration.cpp:224-229 | Changes its own attribute and no other |
| Configurations.Configuration.SetNumber | src/odbc/src/config/configuration.cpp:176-190 | The same for numbers |
| Configurations.Configuration.ToMap | src/odbc/src/config/configuration.cpp:262-331 | The argument map holds exactly the attributes that are set, as text |
| Configurations.Configuration.ToConnectString | src/odbc/src/config/configuration.cpp:62-87 | The loop prints the entries in the order of their names, braces where there is a space, nothing for empty values |
| Configurations.NamesInOrder | src/odbc/src/config/configuration.cpp:70-83 | The attributes are printed in lexicographic order of their names |
| ConnectionStrings.EraseLast | src/odbc/src/config/connection_string_parser.cpp:63-98 | Handling and erasing the last segment is one step of the fold over the split segments |
| ConnectionStrings.EqualsInSegment | src/odbc/src/config/connection_string_parser.cpp:71-76 | A segment is handled exactly when its last "=" is not its first character |
| ConnectionStrings.LeftmostWins | src/odbc/src/config/connection_string_parser.cpp:63-98 | Each attribute ends up with what the leftmost segment says whose value is accepted; otherwise it stays |
| ConnectionStrings.TextSays | src/odbc/src/config/connection_string_parser.cpp:273-274 | A text attribute accepts every occurrence, but for a log path that is no directory |
| AttributeCase.KeywordIff | src/odbc/src/config/connection_string_parser.cpp:123-174 | A keyword is recognised exactly when it is the name of the attribute up to letter case |
| AttributeCase.AuthIff | src/odbc/src/authentication/auth_type.cpp:24-46 | An authentication type is recognised exactly when it is its name up to letter case and white space around it |
| AttributeCase.SaysIff | src/odbc/src/config/connection_string_parser.cpp:119-354 | A segment sets an attribute exactly when its keyword is the name of the attribute up to letter case and the value is accepted |
| AttributeCase.AuthAccepted | src/odbc/src/config/connection_string_parser.cpp:246-259 | The authentication attribute is set to a type exactly when the value is the name of the type, in any letter case and trimmed |
| AttributeCase.LevelAccepted | src/odbc/src/config/connection_string_parser.cpp:260-272 | The log level is set exactly when the trimmed value is the number of the level |
| AttributeCase.NumberAccepted | src/odbc/src/config/connection_string_parser.cpp:135-187 | A number attribute accepts exactly 1 to 31 digits whose value fits 32 bits without sign, a request timeout not zero, and is set to the value as a 32-bit integer with sign |
| AttributeCase.KeywordCase | src/odbc/src/config/connection_string_parser.cpp:55-98 | Connection strings that differ only in the letter case of keywords lead to the same settings and to records that differ only in the letter case of the keywords they name |
| AttributeCase.AnyCaseIsRead | src/odbc/src/config/connection_string_parser.cpp:55-133 | A text attribute with its keyword in any letter case is set to its value without a record |
| ConnectionStringParsers.ConnectionStringParser.HandleNumber | src/odbc/src/config/connection_string_parser.cpp:135-187 | Empty, non-digit, too long and out-of-range values are refused with their record; others are set with the 32-bit cast |
| ConnectionStringParsers.ConnectionStringParser.HandleAuth | src/odbc/src/config/connection_string_parser.cpp:246-259 | Unknown authentication types are refused with a record |
| ConnectionStringParsers.ConnectionStringParser.HandleText | src/odbc/src/config/connection_string_parser.cpp:273-292 | User and password complain about being overwritten; a log path must be a directory |
| ConnectionStringParsers.ConnectionStringParser.HandleAttributePair | src/odbc/src/config/connection_string_parser.cpp:119-354 | Configuration and diagnostics after one pair |
| ConnectionStringParsers.ConnectionStringParser.HandleLast | src/odbc/src/config/connection_string_parser.cpp:71-92 | Trims key and value, takes off one pair of braces, and handles the pair |
| ConnectionStringParsers.ConnectionStringParser.ParseConnectionString | src/odbc/src/config/connection_string_parser.cpp:52-99 | The right-to-left erase loop ends and equals the fold over the split segments |
| ConnectionStringParsers.ConnectionStringParser.ParseConfigAttributes | src/odbc/src/config/connection_string_parser.cpp:106-117 | The list form is parsed up to its first double NUL |
| ConnectionStringParsers.SameAttributes | src/odbc/src/config/connection_string_parser.cpp:101-117 | The list form and the connection string form of the same attributes are read alike |
| ConnectRoundTrip.FieldBackIff | src/odbc/src/config/connection_string_parser.cpp:83-91 | A printed value is accepted as the setting it came from exactly when it is restorable |
| ConnectRoundTrip.NumberBack | src/odbc/src/config/connection_string_parser.cpp:141-187 | A number survives exactly when it is not negative, and not zero for the request timeout |
| ConnectRoundTrip.EntriesSplit | src/odbc/src/config/configuration.cpp:70-83 | The printed string splits into one segment per printed attribute |
| ConnectRoundTrip.CleanBack | src/odbc/src/config/connection_string_parser.cpp:52-99 | With texts free of ";" and "=" every attribute is read on its own |
| ConnectRoundTrip.RoundTripIff | src/odbc/src/config/configuration.cpp:62-87 | Parsing the connection string restores every non-empty attribute and no other if and only if all of them are restorable |
| ConnectRoundTrip.RoundTripIsQuiet | src/odbc/src/config/connection_string_parser.cpp:119-354 | A restorable configuration is read back without a diagnostic record |
| ConnectRoundTrip.DelimiterNeverSurvives | src/odbc/src/config/configuration.cpp:78-82 | A text with ";" or "=" is never restored, braces or not |
| LikePatterns.UpdateRegexExpression | src/odbc/src/utility.cpp:353-365 | Copies what is pending, appends, and moves on |
| LikePatterns.ConvertPatternToRegex | src/odbc/src/utility.cpp:367-404 | The loop with its two indices equals the emission element by element, a dangling escape included |
| LikePatterns.ReadNoLonger | src/odbc/src/utility.cpp:367-404 | What is read of the emitted text has no longer a shortest word than the pattern, and an equal one in the pattern only if it is the pattern |
| LikePatterns.ReadsBackIff | src/odbc/src/utility.cpp:376-401 | The emitted text reads as the elements of the pattern if and only if there is no dangling escape, no unescaped metacharacter and nothing escaped that a bracket cannot hold |
| LikePatterns.MeaningIff | src/odbc/src/utility.cpp:367-404 | A pattern that is not blank becomes a regular expression that matches the very same strings if and only if it has no dangling escape, no unescaped metacharacter and nothing escaped that a bracket cannot hold |
| LikePatterns.BlankIff | src/odbc/src/utility.cpp:370-372 | A blank pattern keeps its meaning only when it is empty |
| LikePatterns.SingleIff | src/odbc/src/utility.cpp:367-404 | Alone, every character keeps its meaning but the 14 special ones; escaped, every one but a caret and, in the ECMAScript grammar, a backslash and a closing bracket |
| LikePatterns.DotIsWild | src/odbc/src/utility.cpp:399-401 | The untranslatable pattern "." matches "x" afterwards |
| CursorNames.AddKeeps | src/odbc/src/connection.cpp:631-644 | Registering a free name keeps set and map in agreement |
| CursorNames.RemoveKeeps | src/odbc/src/connection.cpp:646-656 | Removing a statement keeps set and map in agreement |
| CursorNames.AlwaysAgrees | src/odbc/src/connection.cpp:610-656 | After every sequence of set-name and drop calls the set is the range of the map, the map is injective and no name is reserved |
| CursorNames.FreeIff | src/odbc/src/statement.cpp:1300-1309 | An admissible name is accepted exactly when no statement has it |
| CursorNames.DropFreesName | src/odbc/src/connection.cpp:646-656 | Dropping a statement frees its name and no other |
| CursorNames.LimitIff | src/odbc/src/statement.cpp:1273-1286 | The limit of 18 characters limits the registered name exactly when the length is not passed as SQL_NTS |
| CursorNames.ReservedIff | src/odbc/src/statement.cpp:1287-1291 | A name is reserved exactly when its first seven characters are SQL_CUR in any letter case |
| CursorNames.SameUpperIff | src/odbc/src/query/table_metadata_query.cpp:653-661 | Two identifiers have the same upper case exactly when they are equal up to letter case |
| CursorNames.Connection.GetCursorName | src/odbc/src/connection.cpp:610-619 | The registered name, which is in the set, or the empty string |
| CursorNames.Connection.CursorNameExists | src/odbc/src/connection.cpp:621-629 | Asking the set is asking the map |
| CursorNames.Connection.AddCursorName | src/odbc/src/connection.cpp:631-644 | New map and set for any name; still in agreement when the name was free |
| CursorNames.Connection.RemoveCursorName | src/odbc/src/connection.cpp:646-656 | New map and set, still in agreement |
| CursorNames.Connection.InternalSetCursorName | src/odbc/src/statement.cpp:1275-1310 | Success exactly when the passed length is at most 18, the name does not start with SQL_CUR in any letter case and no statement has it; a refused call changes nothing |
| CatalogLists.NameIsRead | src/odbc/src/query/table_metadata_query.cpp:543-556 | After a fetch the buffer is the C string of the row's text, cut to 2047 characters, or still that of the row before; an unreadable row ends the loop |
| CatalogLists.FetchNames | src/odbc/src/query/table_metadata_query.cpp:553-556 | The fetch loop collects the names in order up to the first row that cannot be read |
| CatalogLists.TextNames | src/odbc/src/query/table_metadata_query.cpp:553-556 | Of text rows every row gives its text, as far as its first NUL and at most 2047 characters of it |
| CatalogLists.GetMatched | src/odbc/src/query/table_metadata_query.cpp:522-600 | Names and result of a SHOW statement, from the pages the server answers with |
| CatalogLists.WholeListIff | src/odbc/src/query/table_metadata_query.cpp:553-558 | A list reported as a success has a name for every row of the server and hides no failure if and only if every page answered, no rows follow an empty page and every row is readable |
| CatalogLists.FailureIsSilent | src/odbc/src/query/table_metadata_query.cpp:553-558 | A page that fails behind the first is reported as a success |
| CatalogLists.GapIsSilent | src/odbc/src/query/table_metadata_query.cpp:553-558 | So are rows behind an empty page |
| CatalogLists.EmptyListIff | src/odbc/src/query/table_metadata_query.cpp:553-558 | A list is a success and empty exactly when the first row is unreadable |
| TableQueries.ModesMirror | src/odbc/src/query/table_metadata_query.cpp:392-520 | A table query in one mode and its mirror image in the other come to the same result and to the same list with catalog and schema exchanged |
| TableQueries.ListsEveryTable | src/odbc/src/query/table_metadata_query.cpp:730-797 | Table j of database i is entry number (tables of the earlier databases) + j, with the database as its schema or as its catalog by the mode, the other of the two empty, and type TABLE |
| TableQueries.EveryEntryIsATable | src/odbc/src/query/table_metadata_query.cpp:748-782 | Every entry is a matched table of a matched database, at exactly that place |
| TableQueries.FirstMatchIff | src/odbc/src/query/table_metadata_query.cpp:651-678 | The database of an identifier is the first in server order that equals it up to letter case, and there is none exactly when no name does |
| TableQueries.MatchingIs | src/odbc/src/query/table_metadata_query.cpp:691-714 | The tables of an identifier are those that equal it up to letter case, in server order, and no others |
| TableQueries.ValidTypeIff | src/odbc/src/query/table_metadata_query.cpp:357-372 | A type list is accepted exactly when it is absent, empty or everything, or when one of its trimmed parts is TABLE, plain or in either quotes |
| TableQueries.DatabasesStatement | src/odbc/src/query/table_metadata_query.cpp:526 | The statement carries the pattern between single quotes |
| TableQueries.TablesStatement | src/odbc/src/query/table_metadata_query.cpp:566 | The statement carries the database between double quotes and the pattern behind it |
| TableQueries.CatalogsRequest | src/odbc/src/query/table_metadata_query.cpp:67-74 | Catalog % with empty schema and table lists every database, in server order, as a catalog |
| TableQueries.TypesRequest | src/odbc/src/query/table_metadata_query.cpp:76-80 | Type % with three empty names lists the type TABLE alone |
| TableQueries.AbsentIsAny | src/odbc/src/query/table_metadata_query.cpp:720-760 | In a search pattern query an absent table name is any table name |
| TableQueries.SuccessIffListed | src/odbc/src/query/table_metadata_query.cpp:786-796 | Plain success exactly when the list is not empty, or when all databases are asked for and the first row is unreadable |
| TableMetadataQueries.TableMetadataQuery.constructor | src/odbc/src/query/table_metadata_query.cpp:39-79 | The three special requests are recognised |
| TableMetadataQueries.TableMetadataQuery.AddTables | src/odbc/src/query/table_metadata_query.cpp:763-781 | One entry for each name, in order |
| TableMetadataQueries.TableMetadataQuery.GetAllDatabases | src/odbc/src/query/table_metadata_query.cpp:602-634 | One entry for each database |
| TableMetadataQueries.TableMetadataQuery.GetTablesWithSearchPattern | src/odbc/src/query/table_metadata_query.cpp:730-797 | The nested loops collect the tables of all matched databases, or fail |
| TableMetadataQueries.TableMetadataQuery.FindDatabase | src/odbc/src/query/table_metadata_query.cpp:650-666 | The first database whose name equals the identifier but for letter case |
| TableMetadataQueries.TableMetadataQuery.GetTablesWithIdentifier | src/odbc/src/query/table_metadata_query.cpp:636-728 | The tables of that database whose name equals the table identifier but for letter case |
| TableMetadataQueries.TableMetadataQuery.GetTablesMeta | src/odbc/src/query/table_metadata_query.cpp:392-520 | The branches of both modes |
| TableMetadataQueries.TableMetadataQuery.TypeIsValid | src/odbc/src/query/table_metadata_query.cpp:356-383 | One of the comma-separated, perhaps quoted types is TABLE, or none is asked for |
| TableMetadataQueries.TableMetadataQuery.MakeRequestGetTablesMeta | src/odbc/src/query/table_metadata_query.cpp:340-390 | The list of a request |
| TableMetadataQueries.TableMetadataQuery.Execute | src/odbc/src/query/table_metadata_query.cpp:179-197 | The list is there and nothing of it fetched, exactly on success with or without information |
| TableMetadataQueries.TableMetadataQuery.FetchNextRow | src/odbc/src/query/table_metadata_query.cpp:215-242 | The k-th fetch hands out entry k - 1: each bound column holds its own field (catalog, schema, table, type, a null remark), a missing text leaves SQL_NULL_DATA in the indicator; after the last entry end of data for ever |
| TableMetadataQueries.EntryHeld | src/odbc/src/query/table_metadata_query.cpp:264-294 | After an entry has been put column 1 holds its catalog, 2 its schema, 3 its table name, 4 its type, and the indicator of 5 says null |
| TableMetadataQueries.TableMetadataQuery.RowNumber | src/odbc/src/query/table_metadata_query.cpp:319-334 | The number of fetches exactly while the cursor is on a fetched entry; 0 past the end; 1 for a list of which nothing has been fetched yet |
| ColumnQueries.WalkVisitsPrefix | src/odbc/src/query/column_metadata_query.cpp:514-525 | The tables for which a describe statement is run are a prefix of the table list, the whole list exactly when every table can be described |
| ColumnQueries.ColumnEntries | src/odbc/src/query/column_metadata_query.cpp:592-600 | Only wanted columns, numbered one after the other |
| ColumnQueries.NumberOfEntries | src/odbc/src/query/column_metadata_query.cpp:592-600 | As many entries as there are wanted columns |
| ColumnQueries.ColumnIsListed | src/odbc/src/query/column_metadata_query.cpp:592-600 | Every column that is asked for, each one by % and else the one of that name, is listed in table order with its table and its database as schema or catalog by the mode, at and numbered by the place that counts the wanted columns before it |
| ColumnQueries.EveryEntryIsAColumn | src/odbc/src/query/column_metadata_query.cpp:592-600 | Every entry is such a column of the table |
| ColumnQueries.EveryTableIsDescribed | src/odbc/src/query/column_metadata_query.cpp:475-525 | The walk of a search pattern query gets table j of database i as number (tables of the earlier databases) + j |
| ColumnQueries.DescribeStatement | src/odbc/src/query/column_metadata_query.cpp:555-558 | The statement carries the database and the table between double quotes |
| ColumnQueries.NarrowIsKept | src/odbc/src/query/column_metadata_query.cpp:569-596 | The name that is compared is what a buffer of 2048 bytes keeps of it in wide characters |
| ColumnQueries.OrdinalIff | src/odbc/src/query/column_metadata_query.cpp:592-600 | A wanted column gets the ordinal position it has in the table if and only if every column before it is wanted too |
| ColumnQueries.AllOrdinalsIff | src/odbc/src/query/column_metadata_query.cpp:592-600 | All wanted columns stand at their positions in the table if and only if no wanted column comes after one that is not |
| ColumnQueries.SecondColumnIsFirst | src/odbc/src/query/column_metadata_query.cpp:592-600 | The second of two columns, asked for alone, is reported as the first |
| ColumnQueries.ColumnModesMirror | src/odbc/src/query/column_metadata_query.cpp:170-261 | A column query and its mirror image come to the same result and describe the same tables in the same order |
| ColumnMetadataQueries.ColumnMetadataQuery.AddColumns | src/odbc/src/query/column_metadata_query.cpp:592-600 | The loop adds the wanted columns with their positions |
| ColumnMetadataQueries.ColumnMetadataQuery.MakeRequestGetColumnsMetaPerTable | src/odbc/src/query/column_metadata_query.cpp:550-613 | The columns of one table are added and the table is counted as described; a table that cannot be described is no data |
| ColumnMetadataQueries.ColumnMetadataQuery.DescribeTables | src/odbc/src/query/column_metadata_query.cpp:475-525 | The tables of the table query are described in turn: result, columns and the tables described |
| ColumnMetadataQueries.ColumnMetadataQuery.MakeRequestGetColumnsMeta | src/odbc/src/query/column_metadata_query.cpp:533-548 | One table for identifiers, the listed tables for patterns |
| ColumnMetadataQueries.ColumnMetadataQuery.Execute | src/odbc/src/query/column_metadata_query.cpp:170-261 | Result, columns and described tables of the request; executed exactly on plain success |

## Left out

- Executing the same `DataQuery` a second time: token, queue, closing flag and counter are carried over, and the claims are for the first execution of an object.
- Server requests, credentials, proxies and environment variables: only the chain of pages, the set of directories and the mode flags remain, as parameters.
- The server's failure messages, logging, and the texts of diagnostic records; the connection string parser keeps reason and keyword of each record.
- Result set metadata: a row has as many columns as it has cells, and the discovery loop of the column list is not part of this model.
- Widths of counters: row counter and tokens are unbounded here.
- Walking past the end: a cursor beyond its page only counts on, where the code moves an iterator beyond its end.
- Scalar columns other than text: numbers, decimals, dates, times and timestamps rest on conversions that are not part of this model; intervals are modelled as text only.
- Buffers of floating point, numeric, date, time, timestamp and interval structures, and binary input.
- Character sets: text is one byte a character, and wide text is that byte and a zero; the code's UTF-8 conversion is not part of this model.
- Several application threads on one connection, and the unlocked check before a cursor name is added.
- `GetMeta` with its extra request, `NextResultSet`, affected rows, descriptors and the other query classes.
- DataQueries.DataQuery.Cancel: the server's answer to the cancel request is a parameter.
- DataQueries.DataQuery.FetchNextRow: a fetch called behind the empty page that ended the data is excluded; it never returns (`PagerDeadlock.FetchNeverReturns`), and no other fetch is excluded (`DataQueries.DataQuery.LiveIff`).
- DataQueries.DataQuery.Position: the same fetch is excluded.
- DataQueries.DataQuery.SwitchCursor: the same call is excluded.
- DataQueries.DataQuery.TakePage: the same wait is excluded.
- DataQueries.DataQuery.Sleep: the same wait is excluded; there the main thread sleeps for ever.
- DataQueries.DataQuery.Execute: a second execution of the same object is excluded.
- Statements.Statement.InternalFetchRow: a block that runs into that fetch is excluded; the bound arrays have to lie in memory for all elements; the row counter pointer is an optional value.
- AppBuffers.CopyText: the UTF-8 branches are not modelled, text is one byte a character.
- AppBuffers.PutNumToNumBuffer: integer types only.
- AppBuffers.PutStringToBuffer: buffers of floating point and numeric structures are not modelled.
- Slots.PutStaysInSlot: covers the Put of a cell; the Put functions of dates, times, decimals and interval structures are not modelled.
- Renderer.ParseDatum: scalar columns other than text are not modelled.
- Intervals.PutInterval: requires a data buffer of at least one byte; the interval structure is not modelled.
- Intervals.PutIntervalWide: requires a data buffer of at least one wide character.
- Intervals.DaySecondRoundTripIff: a field that is not matched counts as unreadable, where the code uses an uninitialised variable.
- ConnectionStringParsers.ConnectionStringParser.HandleAttributePair: `sizeof(std::string)`, the length limit of numbers, is taken as 32.
- Configurations.Configuration.SetLogPath: the logger that is told about the path is not part of this model.
- Configurations.Configuration.SetLogLevel: the logger that is told about the level is not part of this model.
- LikePatterns.MeaningIff: the regular expressions are those made of `.`, `.*`, `[c]` and ordinary characters, read by this model's own reader and not by `std::regex`.
- CatalogLists.GetMatched: binds the first column only; in a describe statement the code also reads the second and third, and an unreadable one would end its loop.
- TableMetadataQueries.TableMetadataQuery.RowNumber: with an empty list the cursor is at the end, where the code compares an unset iterator.
- ColumnMetadataQueries.ColumnMetadataQuery.DescribeTables: reads database and table from the current entry; the code passes them through two buffers that cannot cut them, as the names are cut already.
- ColumnMetadataQueries.ColumnMetadataQuery.MakeRequestGetColumnsMetaPerTable: collects the names of a table before it filters them, starts from a zeroed name buffer, and keeps neither data types nor remarks.
- ColumnMetadataQueries.ColumnMetadataQuery.Execute: fetching and the typed result columns of a column query are not part of this model.
