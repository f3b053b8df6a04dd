# Load-data server: ingestion, correlation and dashboard buffers

This project models the core of a small sensor-logging system, in Dafny.

An ESP32 posts current readings and temperature readings to a Node.js server.
The server does four things with each reading:

- it appends the reading as a raw CSV row to the day's file for its stream (`writeToCSV`);
- it keeps the reading in an in-memory pending set, keyed by device timestamp;
- it pairs the reading with the first reading of the other stream whose timestamp is within one second, and appends one combined row for the pair (`writeToCombinedCSV`);
- it evicts every pending reading more than ten seconds older than the new one.

The server also answers three read endpoints: the days that have data, a day's readings as rows, and a CSV download.

The browser dashboard keeps a 50-point window per chart, a 20-row table of recent readings, and a date selector.

The model is split into modules:

- `Js` (js.dfy) models the JavaScript values a payload carries: truthiness, the `|| -999` default, template-literal text, `split` and `join`.
- `Layout` (layout.dfy) models the day string, the year/month partition, file names and headers, and the file-name pattern of the date listing.
- `PendingSet` (pending.dfy) models a pending set as a JavaScript object. It is a list of properties in the order `for…in` enumerates them: array-index keys first, ascending; other keys in insertion order.
- `Correlation` (correlation.dfy) defines one correlation call as a function (`Meet`, `Correlate`), with its invariants.
- `Store` (store.dfy) models the data directory as a class: years, months, and files as lists of lines.
- `Ingest` (server.dfy) covers `writeToCSV` and `writeToCombinedCSV` and the two POST handlers:
  - functions on a `World` value specify them (`WriteSpec`, `CombineSpec`);
  - the `Server` class implements them, and each method is proved equal to its specification;
  - the `for…in` scan and the eviction loop are methods with loops, proved equal to `FirstWithin` and `KeepFresh`.
- `Dates` (dates.dfy) models `GET /api/available-dates`: a loop over the listed file names, then `sort().reverse()`.
- `History` (history.dfy) models `GET /api/data-history` (parse, filter, stable time sort) and `GET /api/download-csv`.
- `Dashboard` (dashboard.dfy) models `addDataToChart`, `addToChart`, `addToRecentData`, `clearChartData` and `populateDateSelector` as classes over the charts' arrays, the table and the selector's options.

The outside world enters as parameters:

- Clock reads are a `Clock` of four ISO strings, one per `new Date()` call of a request.
- `toISOString` of the device time is a function `isoOfMs`.
- `Date.parse` of a server timestamp is a function `timeOf`.
- A directory listing is a sequence of file names.

Behaviour of the code that the model keeps:

- Missing values:
  - A raw current row prints every value as it came, so a missing channel or device id is the text `undefined` (server.js:67).
  - Temperature rows and pending entries replace a falsy value with -999 (server.js:63, 96-100, 107-109).
  - `N/A` appears only in the dashboard's table, for a missing device id (public/script.js:353).
- The device timestamp is divided by 1000 before `toISOString`, and the tolerance and eviction age are 1e6 and 1e7 in the same unit (server.js:49, 114, 165).
  - The ESP32 client stamps readings in milliseconds (main/esp32_sensor_client.c:208).
  - The model keeps the server's arithmetic and fixes no unit.
- The header-only download of a missing raw file uses camelCase column names (`serverTimestamp,...`), unlike the headers written into files (server.js:308-310). `History.DownloadHeaders` states the difference.
- Writing a reading throws in two cases:
  - the device timestamp is missing or out of range, so `toISOString` throws (server.js:49);
  - the clock's day has no '-', so `path.join` gets an undefined month.
  - The throw reaches the handler's 500 answer. If it comes from the combined step, the raw row has already been written.
- The date listing is a plain string `sort().reverse()`, which for `YYYY-MM-DD` days is newest first.

## Model

| member | source | states |
|---|---|---|
| Js.OrSentinel | server.js:63 | `v \|\| -999` is always truthy; it is `v` exactly when `v` is truthy, and -999 otherwise |
| Js.Split | server.js:267 | `split` gives at least one piece; no piece holds the separator; there is exactly one piece iff the string has no separator |
| Js.JoinSplit | server.js:267 | joining the pieces of a split gives back the string |
| Js.SplitJoin | server.js:381 | splitting a comma-join of comma-free fields gives back the fields, so a written row is read back field by field |
| Js.FirstPiece | server.js:22 | `split(c)[0]` is the longest prefix without `c`, followed by `c` when it is shorter than the string |
| Layout.DatePart | server.js:21-23 | the day is a 'T'-free prefix of the ISO instant |
| Layout.Partition | server.js:25-28 | year and month exist iff the day holds '-'; the year is the prefix before the first '-' |
| Layout.DateFileIff | server.js:344 | the file-name pattern accepts exactly `<day>_<current\|temperature\|combined>.csv` for a well-formed day, and captures that day |
| Layout.DateFileOfFileName | server.js:343-346 | every file name the server gives a well-formed day is recognised with that day |
| Layout.PartitionOfDate | server.js:26 | a `YYYY-MM-DD` day is split into its first four and its sixth and seventh characters |
| Layout.DatePartOfIso | server.js:22 | the day of a `toISOString` instant is its first ten characters, a well-formed day |
| PendingSet.Lookup | server.js:121-122 | a key reads as a value exactly when it is present |
| PendingSet.FirstWithin | server.js:119-120 | the scan stops at the first key, in enumeration order, within one second (inclusive); None means no key is within |
| PendingSet.RemoveKeyEntries | server.js:133-134 | after `delete`, the key is gone and every remaining entry was there before |
| PendingSet.RemoveKeyOrder | server.js:133-134 | `delete` keeps the enumeration order |
| PendingSet.RemoveKeyAt | server.js:155-156 | in an ordered set, deleting a present key removes exactly its entry |
| PendingSet.RemoveAbsent | server.js:133-134 | deleting an absent key changes nothing |
| PendingSet.KeepFreshEntries | server.js:167-177 | after the sweep, every entry was there before and none is more than ten seconds older than `now` |
| PendingSet.KeepFreshKeeps | server.js:167-171 | an entry that is not stale survives the sweep |
| PendingSet.KeepFreshOrder | server.js:167-177 | the sweep keeps the enumeration order |
| PendingSet.PutOrder | server.js:92-110 | storing under a key keeps the enumeration order (index keys ascending, then insertion order) and adds no key but that one |
| PendingSet.PutLookup | server.js:92-110 | after `obj[k] = e`, `k` reads `e` and every other key reads as before |
| PendingSet.PutInPlace | server.js:103 | overwriting an existing key keeps the entry in its position |
| PendingSet.PutEntries | server.js:92-110 | `obj[k] = e` stores nothing but `(k, e)` and the entries already there |
| PendingSet.PutAppends | server.js:92-110 | a new key that is not an array index goes after every key already there |
| PendingSet.PutInserts | server.js:92-110 | a new array-index key goes after the smaller index keys and before the larger index keys and every non-index key |
| PendingSet.KeepFreshSubsequence | server.js:167-177 | the sweep only deletes: the entries it keeps appear in the same relative order |
| PendingSet.SingleEntry | server.js:89-177 | what store, sweep, scan and delete do on an empty set and a one-entry set |
| Correlation.CurrentEntryOf | server.js:103-110 | the pending current entry keeps both timestamps and the device id; each channel is the reading's value when truthy and -999 otherwise |
| Correlation.TempEntryOf | server.js:92-101 | the pending temperature entry keeps both timestamps and the device id; each channel, devTemp and devHumi is the reading's value when truthy and -999 otherwise |
| Correlation.CombinedRowColumns | server.js:124-125 | splitting a combined row on ',' gives back exactly its twelve fields: temperature timestamps, both device ids, temperature channels, current channels, devTemp, devHumi |
| Correlation.MeetOrder | server.js:89-177 | one call keeps both sets in enumeration order |
| Correlation.MeetBoundedAge | server.js:163-177 | after a call, no entry in either set is more than ten seconds older than the new reading |
| Correlation.MeetFirstFit | server.js:114-160 | a partner is found iff some key of the other set is within one second, and it is the first such entry (first fit, not closest fit) |
| Correlation.MeetConsumesPartner | server.js:133-134 | the matched partner is no longer pending |
| Correlation.MeetOwnPending | server.js:89-160 | the new reading stays pending under its own key, with its own value, iff no partner was found |
| Correlation.MeetKeepsOthers | server.js:119-177 | every other entry that is not stale stays pending with the same value |
| Correlation.MeetAddsNothing | server.js:89-177 | after a call, each set holds only entries it held before, apart from the new reading; the partner was an entry of the other set |
| Correlation.LookupAt | server.js:121 | in an ordered set, a present key reads as its entry's value |
| Correlation.RemoveLookup | server.js:155-156 | `delete` leaves every other key readable as before |
| Correlation.SweepLookup | server.js:173-177 | the sweep leaves a fresh key readable as before |
| Correlation.CorrelateInvariants | server.js:89-177 | both sets stay ordered and bounded in age; the reading is pending iff no combined row was produced |
| Correlation.CorrelateTemperature | server.js:117-138 | a temperature reading pairs with the first current entry within one second, if any; the row is laid out temperature first; the partner is gone |
| Correlation.CorrelateCurrent | server.js:139-160 | a current reading pairs with the first temperature entry within one second, if any; the row is still laid out temperature first; the partner is gone |
| Correlation.CorrelatePartner | server.js:117-160 | a row is produced iff a partner is found; the partner was pending in the other stream's set, and the row is built from the temperature reading and then the current reading |
| Correlation.CorrelateAddsNothing | server.js:89-177 | after a call, a reading is pending only if it was pending before or is the reading just received |
| Correlation.GoneStaysGone | server.js:89-177 | a reading that is not pending is paired by no later call of a sequence and does not come back, unless it arrives again under the same timestamp |
| Correlation.PairWithinTolerance | server.js:89-177 | two readings of different streams within one second give exactly one row, the same whichever came first, and leave both sets empty |
| Correlation.PairOutsideTolerance | server.js:113-177 | two readings more than a second apart give no row; the first stays pending unless the second is more than ten seconds newer |
| Correlation.EvictedNeverPaired | server.js:163-177 | a reading evicted by a call's sweep is not pending afterwards and no later call of any sequence pairs with it, unless that same reading arrives again under the same timestamp |
| Correlation.EvictionExample | server.js:163-177 | a current reading evicted by a reading ten seconds newer is not paired with a later temperature reading carrying its exact timestamp |
| Correlation.ExamplePair | server.js:92-137 | current 1,2,3 from AA, then temperature 10,20,30 with 25 and 50 from BB half a second later, give the row `BB,AA,10,20,30,1,2,3,25,50` after the timestamps |
| Store.Appended | server.js:72-76 | an existing file gets the line appended; a new file is the header then the line; other files are unchanged |
| Store.AppendedAllLines | server.js:72-76 | a file written only by appends holds one header followed by every row in order |
| Store.AppendedAllExtends | server.js:72-76 | appends to an existing file add the rows in order and never a header |
| Store.Store.constructor | server.js:16-19 | a first start: the data directory is created and holds no year, month or file yet |
| Store.Store.CreateDirectoryStructure | server.js:25-38 | the year and the month directory exist afterwards; files are untouched |
| Store.Store.Append | server.js:72-76 | the files become `Appended` of the old files; the directories are unchanged |
| Ingest.EspMillis | server.js:49 | `t / 1000` truncated toward zero, within a `Date`'s range when `t` is valid |
| Ingest.RawRowColumns | server.js:61-69 | splitting a raw row on ',' gives back exactly its fields: a current row keeps each value's own text (missing ones print `undefined`); a temperature row has -999 in place of a falsy value |
| Ingest.HeaderForFileName | server.js:56-68 | each file the server creates gets the header of its kind: current, temperature or combined |
| Ingest.RawHeaderForFileName | server.js:61-69 | the raw file of a stream is named so that its header is that stream's header |
| Ingest.RawNameNotCombined | server.js:56-57 | a raw file never shares its name with a combined file |
| Ingest.AppendedHeaders | server.js:72-76 | appending with the right header keeps every file starting with the header of its kind |
| Ingest.WriteRejectsBadTime | server.js:47-49 | `writeToCSV` throws a RangeError before writing anything iff the device timestamp is missing or out of range |
| Ingest.WriteRawFirst | server.js:47-80 | the raw row is appended once, with a header only to a new file, whatever the combined step does; the call succeeds iff the combined day has '-'; a throw there leaves the pending sets unchanged |
| Ingest.WriteCombinedAtMostOnce | server.js:79-161 | a combined row is appended iff the correlation found a partner; only the raw and combined files can change |
| Ingest.CombineKeepsValid | server.js:82-178 | the combined step keeps the state well-formed |
| Ingest.WriteKeepsValid | server.js:47-80 | every write keeps the pending sets ordered, each file in an existing month directory, and each file starting with its header |
| Ingest.FindPartner | server.js:119-138 | the `for…in` scan with `break` returns the position `FirstWithin` gives |
| Ingest.EvictStale | server.js:167-177 | the delete-while-enumerating loop leaves exactly `KeepFresh` of the set |
| Ingest.SweepStep | server.js:167-171 | one iteration of the eviction loop extends the swept prefix by one entry, deleting it iff it is stale |
| Ingest.DeleteAtSweepPoint | server.js:167-171 | deleting the key under the sweep position removes only that entry |
| Ingest.MeetStep | server.js:89-177 | store, scan, delete and both sweeps compute `Meet` |
| Ingest.CorrelateStep | server.js:91-177 | the two branches compute `Correlate` on the pending sets |
| Ingest.BroadcastOf | server.js:236-247 | the broadcast carries the device timestamp, or the server clock when the timestamp is 0; devTemp is present iff it is a temperature message |
| Ingest.Server.constructor | server.js:42-45 | both pending sets start empty and no message has been broadcast |
| Ingest.Server.WriteToCombinedCsv | server.js:82-178 | the new state and outcome equal `CombineSpec` of the old state; well-formedness is kept |
| Ingest.Server.WriteToCsv | server.js:47-80 | the new state and outcome equal `WriteSpec` of the old state; well-formedness is kept |
| Ingest.Server.PostSensorData | server.js:189-260 | on success, one broadcast is added and the answer echoes the stream and device id; on a throw, nothing is broadcast and the answer is a 500 |
| Dates.LexLessIrreflexive | server.js:354 | no day sorts before itself |
| Dates.LexLessTransitive | server.js:354 | the default string order is transitive |
| Dates.LexLessTotal | server.js:354 | two different strings are ordered one way or the other |
| Dates.LexLessAsymmetric | server.js:354 | the default string order is asymmetric |
| Dates.Insert | server.js:354 | insertion adds exactly one element, keeping the others |
| Dates.Sort | server.js:354 | `sort()` returns a permutation of its input |
| Dates.InsertAscending | server.js:354 | inserting into an ascending list keeps it ascending |
| Dates.SortAscending | server.js:354 | `sort()` gives code-unit order |
| Js.Reverse | server.js:354 | `reverse()` gives the same number of elements, in the opposite order |
| Dates.InsertDistinct | server.js:354 | inserting a new element keeps the list free of duplicates |
| Dates.SortDistinct | server.js:354 | sorting a duplicate-free list keeps it duplicate-free |
| Dates.ReverseDescending | server.js:354 | reversing an ascending duplicate-free list gives a strictly descending one |
| Dates.SortReverseDescending | server.js:353-354 | `sort().reverse()` of a set's elements lists the same days, strictly newest first |
| Dates.AvailableDates | server.js:320-361 | the answer holds a day iff some listed file name matches the pattern with that day; each is `YYYY-MM-DD`; strictly descending, hence no duplicates |
| Dates.WrittenDayListed | server.js:343-346 | after `writeToCSV` stores a reading, a scan that finds every stored file's name lists the reading's day |
| History.ParseLine | server.js:380-389 | the server timestamp is the line's prefix up to its first comma; each later field is the piece of `split(',')` at its position, absent when the line has fewer pieces; a device id exists iff there are at least three |
| History.ParseFile | server.js:378-390 | one row per line after the header, in file order |
| History.ParseRawRow | server.js:380-389 | a written raw row reads back as its server timestamp, device timestamp, device id and channel texts |
| History.ParseFileOfRows | server.js:379-380 | the header line is never read as data |
| History.ByDevice | server.js:393-395 | the filter keeps exactly the rows of the device |
| History.ByDeviceAppend | server.js:421-428 | filtering the merged rows is filtering each file's rows |
| History.InsertByTime | server.js:431 | insertion adds exactly one row, keeping the others |
| History.SortByTime | server.js:431 | the sort is a permutation of its input |
| History.InsertByTimeSorted | server.js:431 | inserting into a time-sorted list keeps it sorted |
| History.SortByTimeSorted | server.js:431 | the rows come out in ascending server time |
| History.InsertByTimeAtTime | server.js:431 | insertion places a row after every row that sorts the same |
| History.SortByTimeStable | server.js:431 | the sort is stable: rows of equal time keep their input order |
| History.AtTimeAppend | server.js:421 | the rows of one time in a concatenation are those of each part, in order |
| History.DataHistoryEmptyCases | server.js:363-440 | the query fails iff the target day has no '-'; a missing file (typed) or month directory (untyped) gives no rows |
| History.DataHistoryTyped | server.js:372-396 | a typed query gives the file's data lines in order, untagged; when a device is named, exactly the `ByDevice` filter of them; no rows when the file is missing |
| History.DataHistoryUntyped | server.js:397-432 | an untyped query gives both files' filtered rows, sorted by time; at any one time the current rows come first, then the temperature rows, each in file order |
| History.StreamRowsTagged | server.js:400-419 | each untyped row is tagged with the stream of its file |
| History.WrittenReadingReadBack | server.js:372-390 | after a write, a typed query for that stream and day ends with the reading, field by field as written |
| History.TypedQueryOfFile | server.js:372-390 | a typed query for a named day reads exactly the data lines of that file |
| History.DownloadStatus | server.js:263-272 | a day without '-' is a 500 even when `type` is missing; otherwise a missing `type` is a 400 |
| History.DownloadBody | server.js:274-311 | the stored file when it exists, otherwise the fallback header of its type, always under `<day>_<type>.csv` |
| History.DownloadHeaders | server.js:284-310 | a stored file starts with its written header; the combined fallback matches it; a raw fallback does not |
| Dashboard.AddPointWindow | public/script.js:336-345 | labels and values stay paired; each becomes the last 50 of itself with the new element appended |
| Dashboard.AddPointsWindow | public/script.js:336-345 | starting from at most 50 points, a chart shows the last 50 points added, oldest first |
| Dashboard.Chart.AddDataToChart | public/script.js:336-347 | the two arrays become `AddPoint` of the old arrays |
| Dashboard.DeviceCell | public/script.js:357-358 | a truthy device value is shown as its number; a falsy one as `--` |
| Dashboard.RowOf | public/script.js:349-359 | a row exists iff every `toFixed` call applies; kind, MAC fallback `N/A`, channel texts and device cells as the message gives them |
| Dashboard.OrElse | public/script.js:353 | `a \|\| b` is `a` when truthy, else `b` |
| Dashboard.UnshiftedNewestFirst | public/script.js:349-364 | the new row is on top, at most 20 rows remain, and the oldest is dropped when the table was full |
| Dashboard.UnshiftAllTable | public/script.js:349-364 | the table is always the 20 newest rows, newest first |
| Dashboard.Page.RoutedCharts | public/script.js:311-334 | only current and temperature messages feed charts; a current message feeds exactly the three current charts, each its channel; a temperature message feeds the three temperature charts their channels, no current chart, and both device charts iff devTemp and devHumi are both defined |
| Dashboard.Page.AddToChart | public/script.js:311-334 | every chart the message feeds gets `AddPoint` of its value; every other chart is unchanged |
| Dashboard.Page.FeedCurrentCharts | public/script.js:314-318 | the three current charts each get `AddPoint` of their channel |
| Dashboard.Page.FeedTemperatureCharts | public/script.js:319-333 | the three temperature charts get their channels; the device charts get devTemp and devHumi iff both are defined, and are unchanged otherwise |
| Dashboard.Page.AddToRecentData | public/script.js:349-364 | the table gains the message's row iff formatting does not throw; otherwise it is unchanged |
| Dashboard.Page.ClearChartData | public/script.js:386-398 | all eight charts and the table are emptied |
| Dashboard.DayOptions | public/script.js:461-466 | one enabled option per day, in the given order, with the day as value and text |
| Dashboard.CountDisabledDays | public/script.js:461-466 | day options are never disabled |
| Dashboard.RebuiltOptions | public/script.js:455-474 | the first option is kept, the days follow in order, and one disabled placeholder is added iff there are no days |
| Dashboard.RebuiltIdempotent | public/script.js:448-478 | populating twice from the same answer gives the same options as populating once |
| Dashboard.Selector.PopulateDateSelector | public/script.js:448-478 | the options become `Rebuilt` of the old options and the answer: unchanged on a failed request, the first kept otherwise |

## Left out

- File I/O is modelled as a map from paths to lines. Three things are outside the model:
  - `trim()`/`split('\n')` edge cases, and values containing newlines or commas; the read-back lemmas require comma-free fields;
  - `path.join` normalisation and path traversal through a `date` or `type` query value;
  - `fs` failures other than the modelled throws.
- Store.Store.constructor: states only a first start, with an empty data directory; a restart over existing files is the `Ingest.Server` constructor, which takes the store as found.
- The directory scan of the available-dates endpoint (`readdirSync`, `statSync`) is given as the list of names it finds; directory structure and order are not modelled.
- WebSocket fan-out, Express routing, `console.log` and the HTTP status codes appear only as the `Response`, `Download` and `HistoryAnswer` values and the `broadcasts` list.
- Clock reads, `toISOString` of the device time and `Date.parse` are inputs (`Clock`, `isoOfMs`, `timeOf`); date formatting itself is not modelled.
- Ingest.EspMillis: floating-point division and `parseInt` of a non-integer timestamp are not modelled; the timestamp is an integer or absent.
- History.ParseLine: keeps each sensor field as the text handed to `parseFloat`, not the parsed number.
- History.SortByTime: a malformed server timestamp, which gives `NaN` in the comparator and an engine-dependent order, is not modelled; `timeOf` always gives an integer.
- Dashboard.RowOf: `toFixed(2)` and `toLocaleString` are not modelled; a number's own text and a given time label stand in.
- Dashboard.Page.ClearChartData: `chart.update()` and `updateDataTable()` are rendering and are not modelled.
- The dashboard's DOM updates, `loadHistoricalData`, `updateCurrentValues`, and the WebSocket reconnect logic are not modelled.
- The ESP32 client (main/esp32_sensor_client.c) is not part of this model; only its timestamp unit is noted above.
- Concurrency is not modelled: requests are handled one at a time, as Node's single thread runs each handler to completion.
