# Weather-station aggregation and query model

A Dafny model of two scripts from a small weather-station data system:

- **`calculate_aggregates.py`** reads every station's table of five-minute readings from an input store. For each station it writes:
  - the raw table, unless `--exclude_raw` is given;
  - for each statistic, an hourly and a daily summary table under hierarchical keys such as `/<station>/res1hour/mean`. The statistics are mean, min and max over nine measurement variables, and sum over `PRECIPITATION`.

  Readings are grouped by two keys:
  - the UTC hour the reading's interval ends in;
  - the station's local day, where a reading stamped at local midnight belongs to the day before.
- **`api_restful.py`** serves that store over three read-only resources:
  - the sorted list of station names, taken from the keys;
  - per station, the statistics available for each variable and timestep;
  - the dates and values of one variable of one table over a closed time range.

Timestamps are integer minutes since 1970-01-01T00:00, which is what numpy's `datetime64` holds at minute resolution. Cells are exact reals, so mean is an exact quotient. A frame is an index, named columns and one row of cells per index entry. A store is a `map` from key to frame.

The output store that the aggregation loops update is a class, `Aggregates.OutputStore`, with a map field. Each imperative loop is a method:
- the station loop;
- the loop over the default statistics;
- the three nested loops of `Station.get`.

Each such method is proved equal to a pure specification function, and the properties are proved about those functions.

Modules:
- `Results`: `Option` and `Result`.
- `Seqs`: filter and map.
- `Text`: Python string order, `sorted`, `split`, `endswith`.
- `Calendar`: Gregorian dates, day and minute counts, `%Y%m%d%H%M` and `YYYYMMDD` parsing.
- `Buckets`: the hour and local-day keys.
- `Reducers`: the four statistics.
- `Frames`: tables and stores.
- `Grouping`: group-by and reduce.
- `Aggregates`: the aggregation job.
- `Api`: the REST resources.
- `Pipeline`: properties of the writer and the reader together.

Three behaviours one might expect of a batch job like this are absent from the code, and the model follows the code:
- **Failures are not isolated per station.** An exception in one station's iteration ends the whole run, and later stations are never processed (`Aggregates.RunJobsStopped`).
- **A station's writes are not atomic.** The raw table and the tables of the statistics computed before a failure stay written (`Aggregates.StationJobWritesRawFirst`, `Aggregates.SummaryPutsStopped`).
- **Missing readings are averaged in.** The station files mark missing readings with sentinel values such as -9999. The reader never turns those into NaN (the TODO at process_data.py:48), so the reducers see every value of a group, sentinels included. The docstring at calculate_aggregates.py:8-10 calls this aggregation naive.

## Model

| member | source | states |
|---|---|---|
| Buckets.HourBucket | calculate_aggregates.py:77-80 | The hour bucket is a whole hour `b` with `b - 60 <= t - 5 < b`: the hour whose end closes the reading's five-minute interval. |
| Buckets.HourBucketRoundsUp | calculate_aggregates.py:76-80 | For a timestamp on the five-minute grid, the bucket is the timestamp rounded up to a whole hour, and the timestamp itself when it is on the hour. |
| Buckets.HourBucketUnique | calculate_aggregates.py:77-80 | Any whole hour `b` with `b - 60 < t <= b` is the bucket of a grid timestamp `t`, so the bucket is the only such hour. |
| Buckets.HourBucketMonotone | calculate_aggregates.py:77-80 | A later timestamp never gets an earlier bucket. |
| Buckets.HourBucketExamples | calculate_aggregates.py:77-80 | 01:00 maps to 01:00, 01:05 to 02:00, 00:00 to 00:00 and 00:55 to 01:00. |
| Buckets.LocalDay | calculate_aggregates.py:84-85 | The local day of a reading is always a valid date. |
| Buckets.LocalDayStamp | calculate_aggregates.py:82-85 | The key the code computes (the day count of `LST_DATE` in minutes, less one day when `LST_TIME` is 0) is midnight of the local day: the previous calendar day at local midnight, `LST_DATE` otherwise. |
| Buckets.LocalDayStampOrder | calculate_aggregates.py:84-85 | Day keys compare as the local days do: earlier iff earlier, equal iff the same day. |
| Buckets.LocalDayExamples | calculate_aggregates.py:84-85 | At local midnight, 2020-03-01 becomes 2020-02-29, 2019-03-01 becomes 2019-02-28, 2021-01-01 becomes 2020-12-31 and 2020-03-15 becomes 2020-03-14; at 00:05, 2020-03-15 stays. |
| Calendar.PrevDay | calculate_aggregates.py:84-85 | The previous day is a valid date before `d`, with no valid date strictly between them. |
| Calendar.NextDay | calculate_aggregates.py:84-85 | The next day is a valid date after `d`, with no valid date strictly between them. |
| Calendar.PrevNextInverse | calculate_aggregates.py:84-85 | Previous and next day undo each other on every valid date. |
| Calendar.DayNumberOfPrevDay | calculate_aggregates.py:84-85 | Subtracting one `timedelta64[D]` from a date's day count lands exactly on the previous calendar day, across month and year ends and leap years. |
| Calendar.DayNumberMonotone | calculate_aggregates.py:83-85 | The `datetime64[D]` day count orders valid dates chronologically and is one-to-one. |
| Calendar.MinutesMonotone | api_restful.py:78-85 | The minute count orders date-times chronologically and is one-to-one, so range bounds compare as instants. |
| Calendar.ParseStamp | api_restful.py:78-79 | An accepted stamp is a valid date-time in Python's year range. |
| Calendar.FormatStamp | api_restful.py:78-79 | A rendered stamp is twelve digits. |
| Calendar.ParseFormatStamp | api_restful.py:78-79 | Parsing the rendering of any valid date-time gives it back. |
| Calendar.FormatParseStamp | api_restful.py:78-79 | Every accepted stamp is the rendering of what it parses to, so parsing is one-to-one. |
| Calendar.ParseFormatDigits | api_restful.py:78-79 | Reading back a zero-padded number that fits its width gives the number. |
| Calendar.FormatParseDigits | api_restful.py:78-79 | Re-rendering a parsed digit field at its width gives the field back. |
| Calendar.ParseYmd | calculate_aggregates.py:82-83 | An accepted `YYYYMMDD` value is a valid date with a four-digit year. |
| Calendar.ParseYmdRoundTrip | calculate_aggregates.py:82-83 | Every valid date with a four-digit year, written `YYYYMMDD`, parses back to itself. |
| Calendar.YmdOfParse | calculate_aggregates.py:82-83 | Every accepted value is the `YYYYMMDD` writing of the date it parses to. |
| Reducers.Minimum | calculate_aggregates.py:49 | `np.min` returns an element of the group that no element is below. |
| Reducers.Maximum | calculate_aggregates.py:50 | `np.max` returns an element of the group that no element exceeds. |
| Reducers.Reduce | calculate_aggregates.py:47-50 | The min and the max of a group are values of the group that bound all its values. The mean lies between the group's minimum and maximum. |
| Reducers.TotalAppend | calculate_aggregates.py:109 | The sum of two runs of values is the sum of their sums. |
| Reducers.TotalBounds | calculate_aggregates.py:109 | `n` values that all lie between `lo` and `hi` sum to between `n * lo` and `n * hi`. |
| Reducers.AverageWithin | calculate_aggregates.py:48 | Values that all lie between two bounds have their mean between them too. |
| Reducers.TotalPermutation | calculate_aggregates.py:109 | `np.sum` does not depend on the order of the values. |
| Reducers.AverageBetween | calculate_aggregates.py:48-50 | `np.mean` lies between `np.min` and `np.max`. |
| Reducers.ReducePermutation | calculate_aggregates.py:95-99 | All four statistics depend only on the multiset of a group's values. |
| Grouping.GroupKeys | calculate_aggregates.py:88-89 | Group keys are strictly ascending, and a key occurs iff some reading has it. |
| Grouping.IncreasingUnique | calculate_aggregates.py:88-89 | Only one strictly ascending sequence holds a given set of keys, so the group index is determined by the keys present. |
| Grouping.GroupValues | calculate_aggregates.py:95 | A group that occurs is never empty. |
| Grouping.FlattenCount | calculate_aggregates.py:88-89 | Laying groups of distinct keys end to end holds each reading as often as the input does if its key is listed, and otherwise not at all. |
| Grouping.GroupsPartition | calculate_aggregates.py:88-89 | The groups together are a permutation of the readings: each reading is in exactly one group, and no group is empty. |
| Grouping.AggregateTable | calculate_aggregates.py:95 | `grouped[vars].agg(stat)` has the selected variables as columns and the ascending distinct keys as index. |
| Grouping.AggregateCell | calculate_aggregates.py:95 | Each cell is the statistic applied to that bucket's values of that variable. |
| Grouping.AggregateOrderIndependent | calculate_aggregates.py:88-99 | Permuting the readings leaves every aggregate table unchanged. |
| Grouping.GroupMinimum | calculate_aggregates.py:95 | A bucket's minimum is the value of one of its readings, and no reading of the bucket is smaller. |
| Grouping.GroupMaximum | calculate_aggregates.py:95 | A bucket's maximum is the value of one of its readings, and no reading of the bucket is larger. |
| Grouping.MinCellIsGroupMinimum | calculate_aggregates.py:95-107 | Every cell of the min table is a value that occurs in its bucket and is at most every value there. |
| Grouping.MaxCellIsGroupMaximum | calculate_aggregates.py:95-107 | Every cell of the max table is a value that occurs in its bucket and is at least every value there. |
| Grouping.MeanWithinMinMax | calculate_aggregates.py:95-107 | In every bucket and column: min cell <= mean cell <= max cell. |
| Grouping.GroupTotals | calculate_aggregates.py:109 | Each bucket's total is the sum of that bucket's values. |
| Grouping.GroupTotalsFlatten | calculate_aggregates.py:109 | Adding up the bucket totals equals summing the laid-out groups. |
| Grouping.SumColumn | calculate_aggregates.py:95-109 | A column of the sum table holds, bucket by bucket, the sum of the bucket's values. |
| Grouping.SumTableTotal | calculate_aggregates.py:95-109 | Adding up a column of the sum table over all buckets gives the total over all readings. |
| Frames.ColumnIndex | api_restful.py:87 | The position returned is the first column with that name; there is none iff the name is not a column. |
| Aggregates.Summaries | calculate_aggregates.py:104-109 | One step per default statistic, then the sum step. |
| Aggregates.SummariesAt | calculate_aggregates.py:104-109 | Each statistic has its step: mean, min and max over the nine measurement variables, sum over `PRECIPITATION`. |
| Aggregates.HourKeys | calculate_aggregates.py:77-80 | One hour key per reading. |
| Aggregates.HourKeysMembers | calculate_aggregates.py:77-80 | The hour keys are exactly the hour buckets of the readings' timestamps. |
| Aggregates.LocalDateOf | calculate_aggregates.py:82-83 | An `LST_DATE` cell that reads as a date reads as a valid one. |
| Aggregates.DayKeys | calculate_aggregates.py:82-85 | When derivation succeeds there is one day key per reading. |
| Aggregates.DayKeysMeaning | calculate_aggregates.py:82-85 | Each reading's day key is midnight of its local day, from its `LST_DATE` and `LST_TIME`. |
| Aggregates.DayKeysSucceed | calculate_aggregates.py:82-85 | Day keys are derived iff `LST_DATE` exists and all its cells parse and `LST_TIME` exists. A missing `LST_DATE` or `LST_TIME` fails with that column's name. |
| Aggregates.ColumnPositions | calculate_aggregates.py:95 | Selecting `measure_vars` succeeds iff every name is a column. It then gives each name's position; otherwise it names a missing variable. |
| Aggregates.SelectRows | calculate_aggregates.py:75-89 | The grouping copy has one reading per row with one value per selected variable. |
| Aggregates.SelectRowsKeys | calculate_aggregates.py:75-89 | The grouping copy carries exactly the given keys. |
| Aggregates.SummaryTables | calculate_aggregates.py:93-101 | One statistic's tables fail exactly when a selected variable is not a column, and the error names such a variable. Otherwise both tables have the variables as columns. Their indexes are the distinct hour keys and the distinct day keys, ascending. |
| Aggregates.SummaryPuts | calculate_aggregates.py:104-109 | The summary steps put two tables per step that succeeded: all `2n` when none failed. A failure is always a missing column. |
| Aggregates.StationJob | calculate_aggregates.py:66-109 | A station's job writes the raw frame first unless excluded. At most eight summary tables follow, exactly eight when nothing failed. |
| Aggregates.OutputStore.constructor | calculate_aggregates.py:27 | Opening the output store in pandas' default append mode keeps every table the file already holds. |
| Aggregates.OutputStore.Put | calculate_aggregates.py:71-72 | `put` stores the frame under the key, replacing any earlier one, and changes nothing else. |
| Aggregates.CalculateAndOutputSummaries | calculate_aggregates.py:93-102 | If the variables cannot be selected it fails and writes nothing. Otherwise it writes the hourly table under the hour key and then the daily table under the day key. |
| Aggregates.SummaryStep | calculate_aggregates.py:93-102 | Seen from the store, one summary step either fails without writing or adds its two tables. |
| Aggregates.ProcessStation | calculate_aggregates.py:66-109 | One station's iteration leaves the store as the station's specified puts make it, and reports the specified failure. |
| Aggregates.SummaryPutsStopped | calculate_aggregates.py:104-109 | After a statistic fails, no later statistic writes anything. |
| Aggregates.SummaryPutsSucceed | calculate_aggregates.py:93-109 | The summary steps all succeed iff each step's variables are columns of the frame. |
| Aggregates.SummaryPutsShape | calculate_aggregates.py:93-109 | Each successful step writes two tables in order. Each table is under its key, has the step's variables as columns, and has the ascending distinct hour (resp. day) keys as index. A failing step writes nothing more. |
| Aggregates.StationJobSucceeds | calculate_aggregates.py:65-109 | A station's job succeeds iff `LST_DATE` parses, `LST_TIME` exists and all nine measurement variables are columns. Without `LST_DATE` it fails naming that column. |
| Aggregates.StationJobWritesRawFirst | calculate_aggregates.py:68-75 | Unless excluded, the first put is the raw frame, unchanged, under `<station>/res5min/raw`. When excluded, nothing is written under that key. |
| Aggregates.SummaryKeysAreNotRaw | calculate_aggregates.py:70-100 | No hourly or daily key equals the raw key. |
| Aggregates.SummaryPutsNotRaw | calculate_aggregates.py:93-109 | No summary put uses the raw key. |
| Aggregates.KeyNames | calculate_aggregates.py:96-100 | The summary keys are `<station>/res1hour/<stat>` and `<station>/res1day/<stat>` for mean, min, max and sum. |
| Aggregates.SummaryKeys | calculate_aggregates.py:104-109 | When all statistics succeed, the keys written are, in order, the hourly then daily key of mean, min, max and sum. |
| Aggregates.ExpectedKeysByName | calculate_aggregates.py:68-109 | A station's expected keys, spelled out: `<station>/res5min/raw` unless excluded, then `<station>/res1hour/mean`, `<station>/res1day/mean` and the same pair for min, max and sum. |
| Aggregates.ExpectedKeysDistinct | calculate_aggregates.py:68-109 | No expected key repeats. |
| Aggregates.StationJobKeys | calculate_aggregates.py:65-109 | A successful job writes exactly the expected keys, in order. |
| Aggregates.StationJobPutsDistinct | calculate_aggregates.py:65-109 | A successful job never writes the same key twice. |
| Aggregates.ApplyPutsAppend | calculate_aggregates.py:71-102 | Performing two runs of puts is performing their concatenation. |
| Aggregates.ApplyPutsKeys | calculate_aggregates.py:71-102 | After a run of puts, the store holds exactly its former keys and the keys put. |
| Aggregates.ApplyPutsLast | calculate_aggregates.py:71-102 | A key holds the frame of the last put under it. |
| Aggregates.ApplyPutsDistinct | calculate_aggregates.py:71-102 | When no key is put twice, every key put holds its frame afterwards. |
| Aggregates.SummaryTablesOf | calculate_aggregates.py:104-109 | A successful job writes eight summary tables, and each statistic's two are at its step's position. |
| Aggregates.StationJobStoreKeys | calculate_aggregates.py:65-109 | After a successful job the store holds exactly its former keys plus the expected ones. Unless excluded, the raw frame is unchanged under the raw key. |
| Aggregates.StationJobStoreTables | calculate_aggregates.py:88-109 | After a successful job, every statistic has both tables. Their columns are the nine measurement variables, or only `PRECIPITATION` for sum. Hourly indexes are the readings' hour buckets and daily indexes their day keys, ascending. |
| Aggregates.StationJobStoredSummaries | calculate_aggregates.py:93-109 | After a successful job, the hourly and the daily key of each statistic hold the two tables that statistic's summary step computed. |
| Aggregates.StationJobStoreCells | calculate_aggregates.py:88-109 | After a successful job, each stored hourly table is its statistic of every selected variable over the readings grouped by hour bucket, and each daily table the same over the readings grouped by local day. |
| Aggregates.StationJobs | calculate_aggregates.py:65-66 | One job per listed station. |
| Aggregates.StationJobsAt | calculate_aggregates.py:65-66 | The `i`-th job is the `i`-th listed station's job on its input frame. |
| Aggregates.RunJobsFirstFailure | calculate_aggregates.py:65-111 | A run reports no failure iff every station's job succeeded. Otherwise it reports the key and error of the first station that failed. |
| Aggregates.RunJobsNext | calculate_aggregates.py:65-111 | One more station's puts follow those of the stations before it, and its failure becomes the run's. |
| Aggregates.RunJobsStopped | calculate_aggregates.py:65-111 | Once a station fails, later stations write nothing and the run reports that station. |
| Aggregates.RunStation | calculate_aggregates.py:65-111 | One turn of the station loop extends the store and the outcome by exactly the `i`-th station's job. |
| Aggregates.CalculateAggregates | calculate_aggregates.py:61-111 | The whole run leaves the store as every station's puts in listing order make it, up to and including the first failing station, and reports that station and its error. |
| Aggregates.RunJobsPutKeys | calculate_aggregates.py:65-111 | If every job wrote its station's expected keys, the run wrote them station by station. |
| Aggregates.RunJobsKeys | calculate_aggregates.py:65-111 | A run without failure succeeded for every station and wrote each station's expected keys, station by station. |
| Text.LessEqTotal | api_restful.py:31 | Any two strings are comparable in code-point order. |
| Text.LessEqAntisymmetric | api_restful.py:31 | Strings that sort no later than each other are equal. |
| Text.LessEqTransitive | api_restful.py:31 | Code-point order is transitive. |
| Text.Insert | api_restful.py:31 | Inserting into a sorted list keeps it sorted and adds exactly that element. |
| Text.Sort | api_restful.py:31 | `sorted` returns an ascending permutation of its input. |
| Text.SortedUnique | api_restful.py:31 | Two sorted permutations of the same strings are equal. |
| Text.SortPermutation | api_restful.py:31 | `sorted` depends only on which strings are given, not on their order. |
| Text.Split | api_restful.py:31 | `split` returns at least one piece, and no piece contains the separator. |
| Text.SplitJoin | api_restful.py:31 | Splitting a join of separator-free pieces gives the pieces back. |
| Text.JoinSplit | api_restful.py:31 | Joining the pieces of a split gives the string back. |
| Text.EndsWithAppend | api_restful.py:31 | Whether `a + b` ends with a suffix no longer than `b` depends on `b` alone. |
| Api.SplitHasTwo | api_restful.py:31 | `key.split('/')[1]` exists iff the key contains '/'. |
| Api.SecondSegment | api_restful.py:31 | For a key with '/', the result is the second piece of `split('/')`. |
| Api.StationNames | api_restful.py:31 | The station list is sorted. It holds the second segment of each key ending in "raw", as often as such keys have that segment, so one name per key. It fails only when such a key has no '/'. |
| Api.StationNamesFails | api_restful.py:31 | Listing stations fails iff some key ending in "raw" has no '/'. |
| Api.StationNamesListed | api_restful.py:31 | Otherwise the names are sorted and are, with their multiplicities, the second segments of the keys ending in "raw". A name is listed iff it is the second segment of such a key. |
| Api.StationNamesOrderIndependent | api_restful.py:31 | The station list does not depend on the order of the store's key listing. |
| Api.RawKeyRoundTrip | api_restful.py:31-45 | For a name without '/', `'/{name}/res5min/raw'` ends in "raw", splits into `["", name, "res5min", "raw"]`, and gives the name back. |
| Api.StationStats | api_restful.py:41-60 | A missing raw table fails the request. Otherwise every column of the raw table gets an entry for all three timesteps, each listing its available statistics. |
| Api.TimestepLists | api_restful.py:50-58 | Every timestep gets an entry, even an empty one, listing the available statistics. |
| Api.StatList | api_restful.py:52-58 | The inner loop yields the available statistics: a missing table is skipped, not raised. |
| Api.AvailableStats | api_restful.py:52-58 | A statistic is listed iff it is one of the five statistics and its table at that timestep exists with the variable as a column. |
| Api.AvailableStatsSpec | api_restful.py:41-58 | A statistic is listed iff its table exists and has the variable. Listed statistics keep the order raw, sum, min, mean, max. |
| Api.StampArg | api_restful.py:78-79 | An argument is accepted iff it is some valid date and time written as `%Y%m%d%H%M`, and then it yields that minute. A missing argument fails as missing; any other rejected text fails as a bad stamp. |
| Api.StampsWritten | api_restful.py:78-79 | The texts the stamp parser accepts are exactly the written valid date-times, and each reads back as the date-time it writes. |
| Api.QueryKeyIsTableKey | api_restful.py:74-82 | The key a query reads is `'/{station}/res{timestep}/{stat}'`, the key shape the station resource probes. |
| Api.InTimestampRangeMeaning | api_restful.py:85 | A minute count can be a `.loc` bound iff its date-time lies between the first and the last whole minute of pandas' `Timestamp` range. |
| Api.LateStopOutOfBounds | api_restful.py:78-85 | A stop that `strptime` accepts but that lies past the last `Timestamp` fails the query on an existing table with `OutOfBoundsDatetime`, whatever the table holds. |
| Api.LateStopExample | api_restful.py:78-85 | `999912312359` is such a stop: the valid date-time 9999-12-31 23:59, after the last `Timestamp`. |
| Api.LowerBound | api_restful.py:85 | The first position whose entry is at least `start`. |
| Api.UpperBound | api_restful.py:85 | The first position whose entry exceeds `stop`. |
| Api.Query | api_restful.py:74-119 | A response has as many dates as values and echoes the station, variable and stat. |
| Api.QuerySucceeds | api_restful.py:74-87 | A query succeeds iff the timestep, start and stop are given and parse, the table exists, both bounds lie within pandas' `Timestamp` range (1677-09-21 00:13 to 2262-04-11 23:47), its index ascends and it has the variable. Each earlier check's failure is reported first. A bound outside the range fails with `OutOfBoundsDatetime`, start before stop. |
| Api.SliceIsFilter | api_restful.py:85 | The slice between the two search positions is exactly the rows with `start <= date <= stop`, in stored order. |
| Api.QuerySlice | api_restful.py:85-87 | A response's dates and values are the table's index and the variable's column between the two search positions. |
| Api.QueryRange | api_restful.py:85-87 | A response pairs exactly the rows with `start <= date <= stop`, inclusive at both ends and in stored order, and reports the timestep as `res<timestep>`. |
| Api.QueryDates | api_restful.py:85-86 | A response's dates are exactly the table's index entries from start to stop, inclusive at both ends. |
| Api.SliceMembers | api_restful.py:85 | On an ascending index, the entries between the two search positions are exactly those in the closed range. |
| Pipeline.KeysAgree | api_restful.py:44-53 | The writer's keys for station `/name` are the reader's keys for `name`, and every statistic name is one the reader probes. |
| Aggregates.WrittenSuffixesByName | calculate_aggregates.py:68-109 | The key suffixes a job writes, spelled out: `/res5min/raw` unless excluded, then the hourly and daily suffix of mean, min, max and sum. |
| Pipeline.ExpectedKeyMembers | calculate_aggregates.py:68-109 | A station key is written iff its suffix is a written suffix. |
| Pipeline.SuffixesNotWritten | calculate_aggregates.py:68-109 | The job never writes 5-minute summaries or hourly/daily raw tables, and writes no raw table when excluded. |
| Pipeline.OnlyRawKeyIsRaw | api_restful.py:31 | Of a job's keys, only the raw key ends in "raw". |
| Pipeline.StationListedForExpectedKeys | api_restful.py:31 | Listing the keys a station's job writes, in the order it writes them, yields exactly that station, or no station when the raw table was excluded. |
| Pipeline.StationListedAfterJob | api_restful.py:31 | Listing the store a station's job leaves behind, its keys without duplicates in any order, yields exactly that station, or no station when the raw table was excluded. Stated for a job on an empty output file. |
| Pipeline.AbsentAfterJob | api_restful.py:53-58 | A table whose suffix the job does not write is absent afterwards. Stated for a job on an empty output file. |
| Pipeline.RawAfterJob | calculate_aggregates.py:69-72 | Unless excluded, the reader finds the raw frame, unchanged, under its raw key. This holds whatever the output file held before. |
| Pipeline.SummaryAfterJob | calculate_aggregates.py:93-109 | The reader finds every statistic's hourly and daily tables, with that statistic's variables as columns. This holds whatever the output file held before. |
| Pipeline.SummaryCellsAfterJob | calculate_aggregates.py:88-109 | After a station's job, the table the reader finds at `1hour` or `1day` for a statistic is that statistic of every variable over the readings grouped by hour bucket or by local day. This holds whatever the output file held before. |
| Pipeline.MeanWithinMinMaxAfterJob | calculate_aggregates.py:95-107 | In the stored hourly or daily tables, every bucket's min of a measurement variable is at most its mean, which is at most its max. The three tables share columns and index. This holds whatever the output file held before. |
| Pipeline.SumTotalAfterJob | calculate_aggregates.py:95-109 | The stored hourly or daily precipitation sums add up to the total precipitation of the raw readings. This holds whatever the output file held before. |
| Pipeline.UnlistedAfterJob | api_restful.py:52-58 | The 5-minute summaries, the hourly and daily raw tables, and an excluded raw table are absent after the job. Stated for a job on an empty output file. |
| Pipeline.RawPresentAfterJob | api_restful.py:52-56 | Unless excluded, "raw" is listed at 5 minutes for every measurement variable. This holds whatever the output file held before. |
| Pipeline.SummaryPresentAfterJob | api_restful.py:52-56 | A summary statistic is listed for a variable iff it is expected. This holds whatever the output file held before. |
| Pipeline.SummaryExpected | calculate_aggregates.py:104-109 | A summary statistic is expected for a variable iff the job computes that statistic for it. |
| Pipeline.StatPresentAfterJob | api_restful.py:52-56 | After a station's job, a (timestep, stat) table exists with a measurement variable iff the stat is expected there. Stated for a job on an empty output file. |
| Pipeline.StatsAfterJob | api_restful.py:50-58 | After a station's job on an empty output file, the per-variable listing of each measurement variable holds at 5 minutes only "raw", or no statistic when the raw table was excluded. Hourly and daily it holds "min", "mean", "max", preceded by "sum" for `PRECIPITATION` alone. The resource as a whole then fails: see `Pipeline.StationResourceAfterJob`. |
| Pipeline.StationResourceAfterJob | api_restful.py:39-60 | After a station's job on an empty output file, the station resource fails with a missing raw key when the raw table was excluded. Otherwise it has an entry for every raw column, and each measurement variable lists at every timestep the statistics the job computed for it. |
| Pipeline.QueryAfterJob | api_restful.py:74-87 | After a station's job, on any starting store, an hourly or daily query of a computed statistic and variable, with both bounds parsed and in range, succeeds. Its dates are exactly the readings' hour buckets (resp. day keys) that lie between start and stop. |

## Left out

- Missing values and NaN: pandas' grouped mean, min, max and sum skip NaN cells, and a bucket of only NaN sums to 0. The model has no NaN: cells are exact reals and the reducers see every value in a group. The job's input as written holds no NaN for missing readings, since their sentinel values are never converted. `replace_nans` (api_restful.py:12-14) and the Float/Integer/String field choice by dtype (api_restful.py:90-100) are floating-point and formatting concerns outside the model.
- Calendar.ParseStamp: accepts only stamps of twelve ASCII digits. Python's `strptime` also accepts some shorter stamps with unpadded fields, and its numeric fields accept any Unicode decimal digit (Arabic-Indic digits such as `٢٠٢٠01011200`, for instance). Its `%d` and the other two-digit fields also accept a space-padded single digit (`202001 11200`). The model rejects all of these.
- Calendar.ParseYmd: accepts only eight-digit values. pandas 1.x's `strptime` fallback also accepts six- and seven-digit values with an unpadded month or day (2020031 → 2020-03-01, 202011 → 2020-01-01); the model rejects them, so a station with such an `LST_DATE` fails its job here.
- Aggregates.LocalDateOf: `LST_DATE` is read as an integral cell written `YYYYMMDD`; the six- and seven-digit forms above are rejected with it. The column dtype and its string rendering (`astype(str)`) are not modelled, and a non-integral cell is treated as unparseable.
- Aggregates.DayKeys: pandas' nanosecond `datetime64` range (years 1677-2262) is not enforced. Dates parse for four-digit years.
- Aggregates.CalculateAggregates: input keys are taken as a given sequence whose keys are all in the input store, as `inputstore.keys()` provides them. The HDF key normalisation, compression options, `close` calls and progress printing are I/O.
- Api.Query: the bounds are checked against pandas' nanosecond `Timestamp` range (as in pandas 1.x and earlier, where `.loc` cannot convert a later date) before the index is checked for order; pandas versions with other resolutions accept wider ranges.
- Api.Query: an index that is not ascending always fails with `UnsortedIndex`. pandas would slice between exact labels when both exist.
- Api.Query: for duplicate column names the first column is used.
- Api.Query: the response keeps dates as minute counts. The `uri` field, `marshal` and ISO 8601 rendering are web formatting.
- Api.StationNames: the result is the list of names, not the marshalled `{'stations': ...}` dictionary. The store's key listing is a parameter.
- Api.StationStats: the handler appends to lists inside the nested dictionary in place. The model builds each list and each per-variable map in a local and stores it when complete, which yields the same nested map but not the in-place aliasing.
- Api.StationStats: only a missing table is skipped. Other exceptions a store read could raise are outside the model.
- Aggregates.SummaryPutsShape, Aggregates.SummaryKeys, Aggregates.StationJobKeys: the default statistics run in the order mean, min, max that `DEFAULT_SUMMARY_FUNCS` lists (calculate_aggregates.py:47-51, 105). That is the dictionary's iteration order from Python 3.7 on; before it the order is unspecified. The set of tables stored does not depend on it (`Aggregates.StationJobStoreKeys`, `Aggregates.StationJobStoredSummaries`).
- Pipeline: the lemmas stated for a job on an empty output file (`StationListedAfterJob`, `AbsentAfterJob`, `UnlistedAfterJob`, `StatPresentAfterJob`, `StatsAfterJob`, `StationResourceAfterJob`) do not cover an existing file, whose earlier tables may add keys and statistics.
- Dictionary and JSON key order of the responses are not modelled; maps are unordered.
- Command-line parsing, HDF store opening, Flask, CORS, request parsing and route registration are not modelled (calculate_aggregates.py:5-27, api_restful.py:16-25, 63-72, 122-127).
