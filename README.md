# Motion sensor pipeline — a Dafny model

This project models the data logic of a motion-capture dashboard. Phones and
watches post batches of sensor readings, each with a name, a nanosecond time
and a map of values. The Next.js data route merges every batch into one
record per distinct time, stores each record as a flat row of nullable
columns, and keeps the newest 1000 records in memory for the dashboard. A
second route keeps feature packets in the same kind of bounded buffer. A
Flask endpoint appends the same readings to bounded deques. An export script
writes tables as CSV. Two React components look values up by dot-paths,
decide whether a chart has recent data, and group served items by device.

The modules follow the source files:

- `SensorTypes` holds the readings, messages, merged records and the ns→ms
  conversion (types/sensor.ts and the `new Date(time / 1e6)` of the data
  route).
- `Normalizer` is the exact `switch` over sensor names and the per-kind
  field lists, where each field is `values.a || values.b || 0`.
- `Aggregator` is `processSensorData`. It is an imperative method over a map
  and a key order, proved equal to the functional `Aggregate`. Lemmas give
  one record per distinct time in first-seen order, last writer wins, and
  unrecognised names dropped.
- `RowCodec` covers the record→row mapping of `POST` and the row→record
  mapping of `GET`. The round trip loses only the watch-motion fragment.
- `RecentBuffers` is the bounded buffer class (`push`, then
  `slice(-capacity)`), shared by both routes, plus the `slice(-limit)` read.
- `JsNumbers` is `parseInt` as the routes apply it to the `limit` query
  parameter.
- `DataRoute` and `Episode1Route` are the handlers. The store, the request
  body and any store failure are parameters.
- `PythonIngest` is `receive_data`: a class holding the `time` deque and one
  deque per plotted quantity.
- `CsvExport` covers `arrayToCSV` and the first-seen key union. A small
  quote-aware reader states what the escaping guarantees.
- `SensorChart` and `DeviceIdentifier` are the component logic. The current
  time is a parameter.
- `Wrappers`, `Seqs`, `Strings` and `Json` are shared helpers: `Option`,
  first-seen distinct elements and JS `slice`, string `includes`/`join`/
  `split`/`toLowerCase`/`<`, and parsed JSON values.

Two behaviours of the code shape the model:

- Sensor-name matching is exact and case-sensitive. `switch (reading.name)`
  compares names as they are, so `GPS` or `Accelerometer` reaches `default`.
- A failing store call never reaches the in-memory buffer. The handler
  pushes to the buffer only after every awaited store call has returned,
  and a throw jumps to the `catch` before the push.

## Model

| member | source | states |
|---|---|---|
| SensorTypes.MsOfNs | app/api/data/route.ts:399 | the millisecond instant of a nanosecond time, with the fraction cut off toward zero on both signs |
| Normalizer.KindOf | app/api/data/route.ts:412-552 | the `switch` on the sensor name: exact comparison against the eighteen case labels, fifteen kinds, and no kind for `default`; its meaning is pinned by the alias lemmas below |
| Normalizer.KindOfMatchesAliases | app/api/data/route.ts:412-552 | a name selects kind `k` exactly when it is one of the case labels of `k`; `heart rate`/`heartrate`, `location`/`gps` and `barometer`/`pressure` reach one kind and so one field set, `motion` is watch motion, `wrist motion` is wrist motion, anything else is no kind |
| Normalizer.KindOfIsAlias | app/api/data/route.ts:412-552 | every name the switch accepts is a case label of the kind it selects |
| Normalizer.AliasesRecognised | app/api/data/route.ts:412-548 | every case label of a kind selects that kind |
| Normalizer.MatchingIsCaseSensitive | app/api/data/route.ts:412-551 | `GPS`, `Accelerometer`, `Heart Rate` and `Wrist Motion` fall to `default` |
| Normalizer.Pick | app/api/data/route.ts:414-546 | a chain `a \|\| b \|\| 0` gives the value of the first non-zero source key, skipping every earlier one; it gives 0 exactly when no source key holds a non-zero value |
| Normalizer.FieldsDistinct | app/api/data/route.ts:413-547 | no object literal of a case names a field twice |
| Normalizer.Normalize | app/api/data/route.ts:413-547 | a reading's fragment has exactly the fields of its kind, each set to a number (never undefined or null) picked from that field's source chain |
| Normalizer.GpsAliasKeys | app/api/data/route.ts:529-538 | a `gps` reading that has only `lat` and `lng` fills latitude and longitude from them |
| Normalizer.GpsOtherFieldsZero | app/api/data/route.ts:529-538 | the four fields of that reading with no source key present (altitude, accuracy, speed, bearing) are 0 |
| Normalizer.ZeroPrimaryFallsThrough | app/api/data/route.ts:514 | `bpm` present with value 0 falls through to `heartRate` |
| Aggregator.GroupUnseen | app/api/data/route.ts:405-407 | a time key that no reading carries has only the fresh `{ timestamp }` record |
| Aggregator.GroupTimestamp | app/api/data/route.ts:399-407 | the record of every time key has the millisecond instant of that key as its timestamp, whatever its readings |
| Aggregator.GroupLastWriterWins | app/api/data/route.ts:409-547 | when reading `i` is the last reading of kind `k` at time `t`, the record of `t` holds exactly the fragment normalised from reading `i` |
| Aggregator.GroupKindAbsent | app/api/data/route.ts:405-409 | a kind that no reading at time `t` names is absent from the record of `t` |
| Aggregator.GroupKinds | app/api/data/route.ts:409-552 | the record of `t` holds kind `k` exactly when some reading at `t` has a name of kind `k` |
| Aggregator.AggregateLength | app/api/data/route.ts:396-407 | there is one record per distinct `time` value of the payload |
| Aggregator.UnrecognisedReading | app/api/data/route.ts:549-551 | appending a reading with an unrecognised name keeps every record and adds only a timestamp-only record, and only when its time is new |
| Aggregator.UnrecognisedKeepsGroup | app/api/data/route.ts:549-551 | an unrecognised reading changes the record of no time key |
| Aggregator.KeyOrderIsDistinct | app/api/data/route.ts:405-407 | the keys of `timeGroups` in insertion order are the distinct times of the payload in first-seen order |
| Aggregator.GroupedKeys | app/api/data/route.ts:405-407 | during the loop, the map holds a time key exactly when some reading seen so far carries it |
| Aggregator.GroupedStep | app/api/data/route.ts:398-553 | one turn of the loop keeps the invariant: insertion order, key set and the record of every key are those of the longer payload |
| Aggregator.GroupedAggregate | app/api/data/route.ts:555 | the map's records listed in insertion order are the aggregate of the payload |
| Aggregator.ProcessSensorData | app/api/data/route.ts:392-563 | the loop returns the record of each distinct time, in first-seen order, where each record is its readings applied in payload order |
| Aggregator.SameInstantMerges | app/api/data/route.ts:398-427 | an accelerometer reading and a gyroscope reading with the same time merge into one record stamped 1000 ms, with missing gyroscope fields set to 0 |
| RowCodec.ColumnNames | app/api/data/route.ts:115-175 | each kind's column group has one column per stored field; watch motion has none |
| RowCodec.Schema | app/api/data/route.ts:115-350 | the fields `create` writes and the fields `GET` rebuilds are the same list; watch motion is the only kind without columns, and the rebuilt fields of every other kind are exactly the fields `processSensorData` gives it, none twice |
| RowCodec.Encode | app/api/data/route.ts:108-177 | the row keeps the ids and the timestamp; a column is non-null exactly when the record holds its kind with its field, and then it holds that field's value |
| RowCodec.DecodeFragment | app/api/data/route.ts:249-349 | a rebuilt fragment has exactly the fields of its column group, each the column's value or null |
| RowCodec.Decode | app/api/data/route.ts:247-350 | the rebuilt record keeps the row's timestamp; it holds a kind exactly when that kind's first column is non-null; watch motion is never rebuilt |
| RowCodec.FirstCellPresent | app/api/data/route.ts:115-175 | for a processed record, a kind's first column is non-null exactly when the record holds that kind |
| RowCodec.DecodedFragment | app/api/data/route.ts:115-350 | the fragment rebuilt from a stored processed record is that record's fragment |
| RowCodec.DecodedKinds | app/api/data/route.ts:115-350 | the kinds read back are the stored kinds except watch motion |
| RowCodec.RoundTripFragments | app/api/data/route.ts:115-350 | the fragments read back are those of the record less watch motion |
| RowCodec.DecodeEncode | app/api/data/route.ts:115-350 | decoding the row of a processed record gives the record back without its watch-motion fragment |
| RowCodec.GroupProcessed | app/api/data/route.ts:413-547 | every record `processSensorData` builds has full, non-null fragments |
| RowCodec.AggregateRoundTrip | app/api/data/route.ts:88-350 | every record of a batch reads back from its row with the same timestamp and fragments, less watch motion |
| RowCodec.WatchMotionIsDropped | app/api/data/route.ts:519-527 | a record whose only fragment is watch motion reads back with no fragment at all |
| RecentBuffers.RecentBuffer.constructor | app/api/data/route.ts:9-10 | a new buffer is empty and has the given capacity |
| RecentBuffers.RecentBuffer.PushAll | app/api/data/route.ts:182-187 | after `push(...batch)` and the trim, the buffer is the newest `capacity` elements of the old buffer followed by the batch, and never longer than `capacity` |
| RecentBuffers.RecentBuffer.Push | app/api/episode1/route.ts:30-35 | the same for one packet |
| RecentBuffers.LastIsNewestSuffix | app/api/data/route.ts:185-187 | a trimmed buffer holds `min(n, len)` elements, the newest ones, in their original order |
| RecentBuffers.PushKeepsOrder | app/api/episode1/route.ts:30-35 | after a push the new packet is the last element, and the elements before it are the old buffer less its oldest entries |
| RecentBuffers.PushAllInTwoSteps | app/api/data/route.ts:182-187 | pushing a batch at once or in two parts leaves the same buffer |
| RecentBuffers.ReadRecent | app/api/data/route.ts:371 | `slice(-limit)` is always a suffix of the buffer: the newest `limit` elements for a positive limit, the whole buffer for 0 or NaN, and the buffer less its `-limit` oldest elements for a negative limit |
| JsNumbers.TrimStartRemovesSpace | app/api/data/route.ts:230 | `parseInt` starts after a prefix made of white space only, and all of it |
| JsNumbers.LeadingDigits | app/api/data/route.ts:230 | the digits `parseInt` reads are all digits of the radix |
| JsNumbers.LeadingDigitsLongest | app/api/data/route.ts:230 | they are a prefix of the text, and the longest one |
| JsNumbers.ParseIntShowNat | app/api/data/route.ts:230 | `parseInt` reads back the decimal rendering of every natural number, also when non-digit text other than `x` follows it |
| JsNumbers.ParseIntNegative | app/api/data/route.ts:230 | a leading minus negates the number |
| JsNumbers.ParseIntSkipsSpace | app/api/data/route.ts:230 | leading white space does not change the result |
| JsNumbers.ParseIntNaN | app/api/data/route.ts:230 | the empty string, and text that does not start with white space, a sign or a digit, give NaN |
| JsNumbers.BareHexPrefixIsNaN | app/api/data/route.ts:230 | `0x` alone gives NaN |
| JsNumbers.ParseIntHex | app/api/data/route.ts:230 | `0x10` is read in base 16 |
| JsNumbers.ParseInt | app/api/data/route.ts:230 | `parseInt` of a string, NaN as no value; its behaviour is stated by the lemmas around it |
| JsNumbers.ParseLimit | app/api/data/route.ts:230 | `parseInt(param \|\| '100')`: the default is the string `100` |
| JsNumbers.ParseLimitDefault | app/api/data/route.ts:230 | an absent or empty `limit` reads as 100, and any other value is parsed as it is |
| JsNumbers.ParseLimitZero | app/api/data/route.ts:230 | `limit=0` reads as 0 |
| DataRoute.Rows | app/api/data/route.ts:106-179 | one row per record, in record order, each with the batch ids and the record's timestamp |
| DataRoute.Post | app/api/data/route.ts:15-221 | a malformed body or any failing store call gives the error and leaves the buffer unchanged; a failing upsert or `createMany` stores no processed row, while a failing `create` inside `Promise.all` leaves exactly the rows of the records that committed, a subsequence of the batch's rows in order; otherwise the rows of all records are written, the buffer is the newest `capacity` of old plus processed records, and the answer counts records, rows, buffer length and readings and lists the distinct sensor names |
| DataRoute.Get | app/api/data/route.ts:224-390 | a store answer is decoded row by row and reversed, with the store count as total; a failed query serves `slice(-limit)` of the buffer, with the whole buffer length as total |
| DataRoute.GetDefaultLimit | app/api/data/route.ts:230-372 | without a `limit`, the fallback serves the newest 100 records |
| DataRoute.GetPositiveLimit | app/api/data/route.ts:230-372 | a positive decimal `limit` serves the newest `limit` records, in order |
| DataRoute.GetZeroLimit | app/api/data/route.ts:371 | `limit=0` serves the whole buffer |
| DataRoute.GetNaNLimit | app/api/data/route.ts:230-371 | a `limit` that is not a number serves the whole buffer |
| DataRoute.GetNegativeLimit | app/api/data/route.ts:371 | a negative `limit` drops records from the oldest end |
| DataRoute.StoreDataIsChronological | app/api/data/route.ts:242-354 | rows sorted newest first come back oldest first |
| DataRoute.PostThenGet | app/api/data/route.ts:106-354 | every record POST writes reads back through GET with its timestamp and fragments, less watch motion |
| Episode1Route.Post | app/api/episode1/route.ts:25-56 | an unreadable body gives the error with the buffer unchanged; otherwise the packet is pushed and the buffer trimmed, and the answer is the buffer length, or the error when the log line throws, although the packet then stays in the buffer |
| Episode1Route.Get | app/api/episode1/route.ts:59-72 | GET serves a suffix of the buffer, with the whole buffer length as total |
| Episode1Route.GetDefaultLimit | app/api/episode1/route.ts:62-64 | without a `limit` it serves the newest 100 packets |
| Episode1Route.GetPositiveLimit | app/api/episode1/route.ts:62-64 | a positive decimal `limit` serves the newest `limit` packets |
| Episode1Route.LogLineSucceeds | app/api/episode1/route.ts:37 | the log line runs through exactly when the packet is an object whose `lr_pan` and `coherence` are numbers, the two `toFixed` calls |
| Episode1Route.LogLineRejects | app/api/episode1/route.ts:37 | the log line throws for a packet that is not an object, that lacks `lr_pan`, or whose `lr_pan` is a string |
| PythonIngest.ValueGet | main.py:404-469 | `values.get(key, 0)` is the stored value when the key is present, even 0, and 0 only when it is missing |
| PythonIngest.TimedPrefix | main.py:397-400 | the readings that get through are all those up to the first one whose `time` is missing or outside the `datetime` range (years 1 to 9999) |
| PythonIngest.TimedPrefixStops | main.py:398-399 | that prefix ends exactly at the first reading whose `time` is missing or out of range, whatever its name |
| PythonIngest.OutOfRangeTimeStops | main.py:397-399 | a reading stamped at year 10000 or just before year 1 ends the batch, with the readings before it kept |
| PythonIngest.Dashboard.Append | main.py:16-82 | appending to a deque keeps its newest 1000 entries and changes no other deque |
| PythonIngest.Dashboard.Dispatch | main.py:398-469 | one reading appends its time to `time` only if it is an accelerometer reading, and appends to each deque exactly what its kind contributes there |
| PythonIngest.Dashboard.AppendFields | main.py:402-469 | a branch appends `values.get(keys[j], 0)` to the `j`-th deque of its kind, for every `j` |
| PythonIngest.Dashboard.ReceiveData | main.py:382-472 | a missing payload is empty; the call succeeds exactly when every reading has a `time` that `fromtimestamp` accepts (years 1 to 9999); the readings before the first missing or out-of-range `time` are applied in order, and every deque, `time` included, ends up as its newest 1000 entries of old content plus appended values |
| PythonIngest.AppendedLength | main.py:402-469 | each deque of a kind receives exactly one value per reading of that kind, and a quantity the kind lacks receives nothing |
| PythonIngest.TimesAppendedLength | main.py:402-406 | `time` receives one entry per accelerometer reading, as many as each of `accel_x`, `accel_y` and `accel_z` |
| PythonIngest.UnrecognisedAppendsNothing | main.py:402-469 | a name without a branch appends to no deque |
| PythonIngest.DataRouteOnlyNames | main.py:402-469 | `heart rate`, `gps`, `pressure`, `motion`, `Accelerometer` and a missing name have no branch |
| PythonIngest.MagnetometerAndCompassApart | main.py:427-431 | magnetometer and compass both read `magneticBearing`, into two different deques |
| PythonIngest.KeysMatchNormalizer | main.py:402-469 | each branch reads the fields the data route produces for the same kind, in the same order: 7 for orientation and 13 for wrist motion |
| PythonIngest.AgreesWithNormalizer | main.py:402-469 | on those kinds the Python value of a field equals the data route's value |
| CsvExport.NeedsQuotingIsIncludes | export-to-csv.ts:23 | the quoting test is the three `includes` calls: a comma, a newline or a double quote |
| CsvExport.EscapeField | export-to-csv.ts:22-26 | a value that needs quoting is wrapped in double quotes with its quotes doubled, any other is kept; its inverse is stated by `UnescapeEscape` |
| CsvExport.CsvText | export-to-csv.ts:8-32 | the text `arrayToCSV` returns: the header line and a newline for no data, else the lines joined by newlines; stated by the round-trip lemmas |
| CsvExport.Lines | export-to-csv.ts:13-29 | the header line, then one line per object in order |
| CsvExport.ArrayToCsv | export-to-csv.ts:8-32 | the loop returns the header line with a trailing newline for no data, and otherwise the lines joined by newlines |
| CsvExport.EmptyDataIsHeaderLine | export-to-csv.ts:9-11 | no data gives the header line followed by a newline |
| CsvExport.NoTrailingNewline | export-to-csv.ts:31 | with data the text ends with the last object's line |
| CsvExport.OtherKeysIgnored | export-to-csv.ts:16-17 | a key that is not a header does not change an object's line |
| CsvExport.CellIsEscapedRaw | export-to-csv.ts:17-26 | a field is the escaped string of its value, and empty for null or undefined |
| CsvExport.CollapseDoubleQuotes | export-to-csv.ts:24 | collapsing `""` undoes the doubling of quotes |
| CsvExport.UnescapeEscape | export-to-csv.ts:22-26 | stripping the outer quotes and collapsing `""` recovers every value |
| CsvExport.FieldRead | export-to-csv.ts:22-26 | every escaped field reads back as its value, up to the comma or newline after it |
| CsvExport.RecordRead | export-to-csv.ts:16-28 | a line of escaped fields reads back as the list of values |
| CsvExport.TextRead | export-to-csv.ts:28-31 | lines of escaped fields joined by newlines read back as the lines of values |
| CsvExport.RoundTripHeaderOnly | export-to-csv.ts:9-11 | the header-only text reads back as the headers |
| CsvExport.RoundTripWithData | export-to-csv.ts:13-31 | a text with data reads back as the headers and one line of values per object |
| CsvExport.CsvRoundTrip | export-to-csv.ts:8-32 | every output reads back as the headers and exactly one field per header per object, holding that object's value (plain headers; see Left out) |
| CsvExport.SingleEmptyColumnIsAmbiguous | export-to-csv.ts:9-20 | with a single header, no data and one object with a null value give the same text |
| CsvExport.UnionKeys | export-to-csv.ts:96-100 | the key union is the keys of all objects in first-seen order, each once |
| CsvExport.UnionKeysCoversAll | export-to-csv.ts:96-100 | every key of every object is a header, and no header repeats |
| SensorChart.GetNestedValue | components/SensorChart.tsx:23-36 | the loop returns the number at the end of the dot-path, or null |
| SensorChart.WalkStops | components/SensorChart.tsx:27-32 | once a segment is missing or the current value is not an object, the answer is null whatever follows |
| SensorChart.NestedValueIsNumber | components/SensorChart.tsx:35 | a path answers a value exactly when it walks to a number, and then it answers that number |
| SensorChart.TwoSegmentPath | components/SensorChart.tsx:23-36 | `a.f` reads the number in field `f` of the object under `a`, and null otherwise |
| SensorChart.FormatChartData | components/SensorChart.tsx:38-57 | one chart point per data point, with its position as `index`, its timestamp, and one entry per configured key holding that key's nested value |
| SensorChart.AnyWristMotion | components/SensorChart.tsx:64 | true exactly when some configured key contains `wristMotion` |
| SensorChart.Recent | components/SensorChart.tsx:67-73 | the filter keeps, in order, only points at most `window` old, later ones included, and every such point |
| SensorChart.HasRecentData | components/SensorChart.tsx:60-78 | `hasRecentData`: false for no data, else whether the window filter keeps a point; stated by the lemmas below |
| SensorChart.HasRecentDataIff | components/SensorChart.tsx:60-78 | data is recent exactly when some point is within the window; no data is never recent |
| SensorChart.TimeWindowIgnored | components/SensorChart.tsx:60-65 | the `timeWindowMs` argument has no effect |
| SensorChart.FutureIsRecent | components/SensorChart.tsx:67-73 | a point stamped later than now counts as recent |
| SensorChart.WindowLengths | components/SensorChart.tsx:64-65 | the window is 20000 ms when a key contains `wristMotion`, and 15000 ms otherwise |
| SensorChart.SensorsWithData | components/SensorChart.tsx:117-126 | the configured sensors that some point resolves to a number, in configuration order, and all of them |
| SensorChart.ShowChart | components/SensorChart.tsx:128-149 | the chart is drawn when the 30-second test and `hasAnySensorData` both hold; stated by `ShowChartIff` |
| SensorChart.ShowChartIff | components/SensorChart.tsx:117-149 | the chart is drawn exactly when some point is at most 30000 ms old and some configured key resolves to a number in some point |
| DeviceIdentifier.OrderIsDistinct | components/DeviceIdentifier.tsx:23-34 | the map's keys in insertion order are the device keys in first-seen order |
| DeviceIdentifier.OrderMembers | components/DeviceIdentifier.tsx:28-34 | a device key is in the map once one of its items has come |
| DeviceIdentifier.GroupedStep | components/DeviceIdentifier.tsx:25-43 | one item more keeps the map's invariant: each entry has its key, its item count and its latest timestamp |
| DeviceIdentifier.GroupInto | components/DeviceIdentifier.tsx:23-43 | the `forEach` leaves one entry per device key, in first-seen order, each with its count and latest timestamp |
| DeviceIdentifier.GroupedDevices | components/DeviceIdentifier.tsx:23-45 | the entries listed in insertion order summarise the items |
| DeviceIdentifier.GroupDevices | components/DeviceIdentifier.tsx:23-45 | one entry per distinct device key in first-seen order; each count is that device's number of items; each `lastSeen` is one of its timestamps that none of its others exceeds under string `>`; the counts sum to the number of items |
| DeviceIdentifier.LatestStep | components/DeviceIdentifier.tsx:40-42 | replacing `lastSeen` by a greater timestamp keeps it the latest |
| DeviceIdentifier.CountsSumToLength | components/DeviceIdentifier.tsx:36-37 | the counts over all devices sum to the number of items |
| DeviceIdentifier.UnknownWithoutIds | components/DeviceIdentifier.tsx:26 | items without `deviceId`, as the data route serves them, all form the one device `unknown` |
| DeviceIdentifier.DeviceRole | components/DeviceIdentifier.tsx:62-67 | `getDeviceRole` on the lower-cased id; stated by `RoleCases` |
| DeviceIdentifier.DeviceColor | components/DeviceIdentifier.tsx:69-74 | `getDeviceColor` by role; stated by `ColorFollowsRole` |
| DeviceIdentifier.RoleCases | components/DeviceIdentifier.tsx:62-67 | LEFT exactly when the lower-cased id contains `left`; RIGHT when it contains `right` but not `left`; `?` when it contains neither |
| DeviceIdentifier.RoleIgnoresCase | components/DeviceIdentifier.tsx:63 | the role does not depend on ASCII case |
| DeviceIdentifier.ColorFollowsRole | components/DeviceIdentifier.tsx:69-74 | the colour depends on the role alone: LEFT is blue, RIGHT is red, and anything else is gray |

## Left out

- Prisma and every other store call are not modelled as a database. `POST` takes the failing call as a parameter. `GET` takes the query's answer (rows and count, or a thrown error) as a parameter, so `where`, `orderBy` and `take` are not modelled. `StoreDataIsChronological` states what the descending order gives.
- Which `create` calls of the `Promise.all` commit before one throws is a parameter of `POST`, not derived from a store.
- The raw-reading rows (`createMany`), the session counters and the device upserts are not modelled beyond "may fail".
- HTTP plumbing, response `timestamp` fields, logging, the WebSocket stub, the raw-file write of `receive_data` and the `fs` writes of the exporter are I/O. They are left out.
- Concurrency is left out: handlers are sequential calls on one buffer object owned by the caller.
- `MsOfNs` divides on unbounded integers. A reading's `time` stands for the integer value of the JSON number after parsing. Above 2^53 ns, JSON times within a few hundred nanoseconds of each other parse to one number and so share one `timeGroups` key; the model keeps them apart. The float rounding of `time / 1e6`, and the invalid `Date` beyond 8.64e15 ms either side of the epoch, are not modelled.
- Two error paths are not derived from their inputs. `BigInt(reading.time)` in the raw-reading rows throws for a non-integer `time`; the model has integer times and covers that throw only as a failing `CreateReadings` call of `POST`. A malformed body makes `json.loads` in `receive_data` raise before any append; `ReceiveData` takes the already parsed payload and has no value for that case.
- The Python `datetime.fromtimestamp(time / 1e9)` is floating point. The `time` deque holds the nanosecond integer instead. `TimedPrefix` takes the `datetime` range in UTC; `fromtimestamp` converts to local time, so the real bounds shift by the UTC offset, and by the rounding of the division. A `time` that is not a number, or `values` that is `null`, are not modelled.
- Sensor values are reals. JSON arrays, `NaN` values and `-0` are not modelled.
- `String(value)` in the exporter is left out: objects are maps to optional strings.
- `toLowerCase` covers ASCII letters only. JS string `<` compares code points here, not UTF-16 code units, so the two orders differ only above the Basic Multilingual Plane.
- `CsvRoundTrip`: headers are written unescaped by the source, so the round trip requires headers that need no quoting. A single-column export whose last value is empty ends in an empty line that a reader cannot see; the round trip requires a non-empty last line, and `SingleEmptyColumnIsAmbiguous` exhibits the clash.
- The readings header reads keys with `Object.keys`, which lists integer-like keys first. The union is modelled on the key lists as given.
- `formatChartData`'s `time` label (date-fns `format`) is left out. So are chart key collisions with `timestamp`, `time` and `index`. A data point is given as its instant and its JSON document, so the lookup runs on JSON values.
- The current time is a parameter of `hasRecentData` and of the chart visibility rule.
- Plotting callbacks, React rendering and the `fetch`/interval plumbing around the device grouping are left out.
