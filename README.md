# Sparkify data lake ETL, modelled in Dafny

The Sparkify job in `etl.py` reads two JSON datasets: song metadata records and user-activity log events. From them it writes a star schema of five Parquet tables:

- **songs**: a projection of the song records, not deduplicated.
- **artists**: a projection of the song records, deduplicated on the whole row.
- **users**: the user columns of the "NextSong" plays, without null user ids, deduplicated.
- **time**: the calendar decomposition of every play's timestamp.
- **songplays**: the fact table, an inner join of the plays with the song records on song title and artist name, then projected.

This project models those record transformations as pure functions over sequences of typed rows. Spark rows are unordered, so the properties are stated as membership and multiplicity, which do not depend on row order. The modules are:

- `Types`: nullable values, results, the 32- and 64-bit integers of the schemas, and an opaque double.
- `Columns`: Spark's resolution of a column name against a frame's columns.
- `Schema`: the two StructType schemas of `main` and the records they describe.
- `Frames`: the DataFrame operators the job uses: `select`, `filter`/`where`, `withColumn` of a UDF that can raise, `dropDuplicates`, and the inner join.
- `Calendar`: the date arithmetic of CPython's `datetime.utcfromtimestamp`, and Spark's `hour`, `dayofmonth`, `weekofyear`, `month`, `year` and `dayofweek`.
- `SongData`: `process_song_data`.
- `LogData`: `process_log_data`.
- `Etl`: `main`, and the referential integrity of the fact table against the dimension tables.
- `References`: which column references of the job resolve as written.

Every field Spark reads from JSON is nullable, so it is an `Option`. The join compares with SQL `=`, under which null equals nothing. Timestamps are whole milliseconds.

The UDF is `datetime.utcfromtimestamp(int(ts)/1000)`. It raises on a null `ts` and on a date outside the years 1 to 9999. When it raises, the Spark job fails at the first table that forces the column. The users table has been written by then, and the time and songplays tables are not written. `Etl.ProcessLogData` returns that outcome as a `Result`.

The job's documented intent differs from its code in places. The model follows the code:

- The documented intent drops users with a null or an empty user id. The code's filter `col("user_id").isNotNull()` drops only a null one, so an empty user id is kept (`LogData.UsersTableComplete`).
- The documented intent describes the users table as unique per user id. The code deduplicates whole rows, so a user whose level changed has one row per level (`LogData.UsersTableKeepsLevels`).
- The documented intent has the songs table fail on two records that share a song id with different payloads. The code neither deduplicates nor checks, so the table has one row per record (`SongData.SongsTable`).
- The documented intent suggests a weekday numbered from 0. The code uses Spark's `dayofweek`, from 1 = Sunday to 7 = Saturday, and so does the model.
- The documented intent gives artist latitude and longitude as floats. The code's schema reads them as `StringType`, so they are strings here.
- The documented intent has a separate date column. The code builds the datetime column with `get_timestamp`, not `get_datetime`, and so does the model.

The code has column references that do not resolve; see "## Findings". The model computes what the job evidently means:

- songs partitioned by year and artist;
- artist names compared with `artist_name`;
- songplays `start_time` taken from the play's timestamp;
- songplays `year` and `month` taken from `start_time`.

The column `method` of the log schema is named `method'` in Dafny, because `method` is a keyword.

## Model

| member | source | states |
|---|---|---|
| Frames.Select | etl.py:33 | a projection has exactly one row per input row, and row i is the image of input row i |
| Frames.SelectMembership | etl.py:40-45 | a row is in a projection exactly when it is the image of some input row |
| Frames.SelectAppend | etl.py:106-115 | the projection of a union of rows is the union of the projections |
| Frames.Where | etl.py:61 | a filter keeps exactly the rows satisfying the condition, each with its input multiplicity, and no other row |
| Frames.WhereIdempotent | etl.py:61 | filtering twice by one condition is filtering once |
| Frames.WhereAppendRejected | etl.py:61 | a row the condition rejects, added to the input, leaves the output unchanged |
| Frames.WithColumn | etl.py:81 | a UDF column succeeds exactly when the UDF succeeds on every row, and then holds each row's value in order; otherwise it fails with the error of some row |
| Frames.DropDuplicates | etl.py:45 | the result has no two equal rows and has the same set of rows as the input |
| Frames.DistinctMultiplicity | etl.py:71 | in a sequence without repetitions, every row occurs once or not at all |
| Frames.DropDuplicatesOrderFree | etl.py:45 | deduplication gives the same bag of rows for any two inputs with the same set of rows |
| Frames.Probe | etl.py:104-105 | one left row's part of the join; characterised by Frames.ProbeMultiplicity and Frames.ProbeMatches |
| Frames.InnerJoin | etl.py:104-105 | the inner join, one probe of the right rows per left row; characterised by Frames.JoinMembership, Frames.JoinMultiplicity, Frames.JoinAppend and Frames.JoinOrderFree |
| Frames.ProbeMultiplicity | etl.py:104-105 | probing one left row gives the pair (a, b) once per copy of a matching b, and no other pair |
| Frames.JoinMultiplicity | etl.py:104-105 | an inner join holds a matching pair (a, b) (copies of a) * (copies of b) times, and a non-matching pair never |
| Frames.JoinMembership | etl.py:104-105 | (a, b) is a join row exactly when a is a left row, b is a right row and they match: soundness and completeness |
| Frames.ProbeMatches | etl.py:104-105 | one left row's join rows pair it with each matching right row, in order, one row per match |
| Frames.JoinAppend | etl.py:104-105 | the join of a union of left rows is the union of their joins |
| Frames.JoinOrderFree | etl.py:104-105 | the join's bag of rows depends only on the bags of its inputs, not on their order |
| Columns.IndexOf | etl.py:64-71 | a found column position lies in the searched range and holds the name |
| Columns.IndexOfFirst | etl.py:64-71 | the position found is the first one holding the name, and none is found when no column holds it |
| Columns.Resolve | etl.py:64-71 | Spark's lookup of a column name: missing, ambiguous or one position; characterised by Columns.ResolveMissing, Columns.ResolveAmbiguous and Columns.ResolveFound |
| Columns.ResolveMissing | etl.py:64-71 | a name fails to resolve as missing exactly when no column has it |
| Columns.ResolveAmbiguous | etl.py:104-115 | a name is ambiguous exactly when two different columns have it |
| Columns.ResolveFound | etl.py:104-115 | a name resolves to position i exactly when column i has it and no other column does |
| References.SongsPartitionKeyAsWritten | etl.py:33-37 | the songs partition key 'id' names no column of the songs table |
| References.SongsPartitionKeyCorrected | etl.py:33-37 | the year and artist partition keys resolve, to columns 3 and 2 of the songs table |
| References.RepartitionKeyAsWritten | etl.py:58-64 | `df.user_id` names no column of the log frame |
| References.RepartitionKeyCorrected | etl.py:64-65 | the log frame's user column `userId` resolves, to its last column |
| References.JoinArtistColumnAsWritten | etl.py:102-105 | `song_df.name` names no column of the song frame |
| References.JoinArtistColumnCorrected | etl.py:104-105 | the song frame's artist name `artist_name` resolves, to column 4 |
| References.SongplaysProjectionAsWritten | etl.py:104-115 | 'start_time' and 'month' name no column of the joined frame |
| References.SongplaysYearAsWritten | etl.py:104-115 | 'year' on the joined frame resolves uniquely, to the song record's release year |
| SongData.SongRowOf | etl.py:33 | the five song columns of a record; characterised by SongData.SongsTable |
| SongData.ArtistRowOf | etl.py:40-44 | the artist columns of a record, renamed; characterised by SongData.ArtistsTable and SongData.ArtistsTableKeepsLocations |
| SongData.SongsTable | etl.py:33 | the songs table has one row per song record, nothing merged or dropped, each holding its record's song_id, title, artist_id, year and duration |
| SongData.ArtistsTable | etl.py:40-45 | the artists table has no two equal rows, and its rows are exactly the renamed artist columns of the song records |
| SongData.ArtistsTableKeepsLocations | etl.py:40-45 | two records of one artist_id with different locations give two different artists rows, both present |
| SongData.ArtistsTableOrderFree | etl.py:40-45 | the artists table's bag of rows depends only on the set of song records |
| LogData.PlayEvents | etl.py:61 | exactly the events whose page is "NextSong" are kept, each as often as it occurs |
| LogData.PlayEventsIdempotent | etl.py:61 | filtering the plays again changes nothing |
| LogData.UserRowOf | etl.py:65-69 | the user columns of a play, renamed; characterised by LogData.UsersTable, LogData.UsersTableComplete and LogData.UsersTableKeepsLevels |
| LogData.UsersTable | etl.py:64-71 | the users table has no two equal rows and no null user_id, and a row is in it exactly when it is the user projection of some play |
| LogData.UsersTableComplete | etl.py:64-71 | every play with a non-null user id, the empty one included, has its users row |
| LogData.UsersTableKeepsLevels | etl.py:64-71 | plays of one user at two levels give two different users rows, both present |
| LogData.UsersTableOrderFree | etl.py:64-71 | the users table's bag of rows depends only on the set of plays |
| LogData.Stamp | etl.py:80 | the UDF fails on a null timestamp; otherwise it gives a datetime in years 1 to 9999 whose epoch milliseconds are ts, or it fails with the out-of-range error |
| LogData.StampSucceeds | etl.py:80 | a timestamp whose date lies in years 1 to 9999 converts, to the datetime of its milliseconds |
| LogData.StampEvent | etl.py:80-81 | a play's timestamp column succeeds exactly when its stamp does, keeps the event and holds the stamp's datetime |
| LogData.StampAll | etl.py:81 | the timestamp column succeeds exactly when every play's stamp does, with each play's datetime in order; otherwise it fails with some play's error |
| LogData.TimeRowOf | etl.py:88-94 | start_time is the timestamp; hour is in 0..23, month in 1..12, day within the month's length, week in 1..53, weekday in 1..7 |
| LogData.TimeTable | etl.py:88-94 | the time table has one row per stamped play, the time row of its timestamp |
| LogData.TimeRowReassembles | etl.py:80-94 | reassembling a time row's year, month, day and hour with start_time's minute and second gives floor(ts / 1000) seconds after the epoch |
| LogData.TimeRowInjective | etl.py:80-94 | two timestamps have equal time rows exactly when they are equal |
| LogData.WeekdayShift | etl.py:94 | timestamps k days apart have weekdays k apart, cyclically: period 7, and Saturday is followed by Sunday |
| LogData.DaysApart | etl.py:80 | datetimes k days of milliseconds apart fall on dates k days apart |
| LogData.EpochTimeRow | etl.py:80-94 | timestamp 0 is 1970-01-01 00:00 UTC, whose weekday is 5 (Thursday) and whose week is 1 |
| LogData.MatchesSong | etl.py:104-105 | the join condition, song = title and artist = artist name under SQL `=`; characterised by LogData.Matches and LogData.NullNeverMatches |
| LogData.SongplayRowOf | etl.py:106-115 | the projection of a matched play and song record; characterised by LogData.SongplaysColumns |
| LogData.SongplaysTable | etl.py:104-115 | the join of the stamped plays with the song records, projected; characterised by LogData.SongplaysSound, LogData.SongplaysComplete, LogData.SongplaysColumns, LogData.SongplaysFanOut and LogData.SongplaysAppend |
| LogData.Matches | etl.py:104-105 | the song records a play matches are those whose title and artist name equal its song and artist, with SQL null semantics |
| LogData.SongplaysSound | etl.py:104-115 | every songplay row is the projection of a play and a song record that match |
| LogData.SongplaysColumns | etl.py:106-115 | each songplay row's columns come from its play (start_time, user_id, level, session_id, location, user_agent), from the song record whose title and artist name equal the play's non-null song and artist (song_id, artist_id), and from start_time (year, month) |
| LogData.SongplaysComplete | etl.py:104-115 | every matching play and song record give their songplay row |
| LogData.SongplaysAppend | etl.py:104-115 | the songplays of plays plus one play are the old songplays plus that play's own rows |
| LogData.SongplaysFanOut | etl.py:104-115 | one play gives exactly one songplay row per song record it matches, and none when it matches none |
| LogData.NullNeverMatches | etl.py:104-105 | a play with a null song or artist gives no songplay row |
| LogData.SongplaysAgreeWithTimeTable | etl.py:88-115 | every songplay row's start_time has a time table row with the same year and month |
| Etl.ProcessSongData | etl.py:25-49 | the songs and artists tables of the song records; characterised by SongData.SongsTable, SongData.ArtistsTable and Etl.SongplaySongIsCatalogued |
| Etl.ProcessLogData | etl.py:52-118 | the users table, then the time and songplays tables or the error of a play's timestamp; characterised by Etl.UsersRowsArePlayers, Etl.NonPlaysIgnored and Etl.TimedTablesWritten |
| Etl.Run | etl.py:121-170 | both stages over the same song records; characterised by Etl.SongplaysReferenceDimensions |
| Etl.UsersRowsArePlayers | etl.py:61-71 | the written users table has no two equal rows, and its rows are exactly the non-null-user projections of the "NextSong" events, whatever happens to the timestamps |
| Etl.NonPlaysIgnored | etl.py:61-115 | an event whose page is not "NextSong" changes none of the log tables |
| Etl.TimedTablesWritten | etl.py:80-118 | the time and songplays tables are written exactly when every play's timestamp converts; otherwise the job fails with a play's error |
| Etl.SongplaysReferenceDimensions | etl.py:33-118 | every songplay row's song is in the songs table, its artist in the artists table, its start_time in the time table with its year and month, and a non-null user in the users table |
| Etl.SongplaySongIsCatalogued | etl.py:33-45 | a songplay row's song_id and artist_id are those of a songs row, and its artist_id that of an artists row |
| Etl.SongplayUserIsListed | etl.py:64-115 | the non-null user_id of a songplay row is that of a users row |
| Calendar.ToOrdinal | etl.py:80 | the ordinal day of a date, 0001-01-01 being day 1; characterised by Calendar.DateRoundTrip, Calendar.OrdinalRoundTrip and Calendar.ToOrdinalInjective |
| Calendar.DayOfYear | etl.py:80 | the day of a date within its year is between 1 and the year's length, and places the date's ordinal after the days of the earlier years |
| Calendar.MonthOf | etl.py:92 | the month of a day of the year is in 1..12, and the day lies within that month |
| Calendar.MonthOfUnique | etl.py:92 | a day of the year lies in exactly one month |
| Calendar.SplitCycles | etl.py:80 | an ordinal is the sum of its 400-, 100-, 4- and 1-year cycles and a rest, each in range, and a count of 4 only on the last day of a leap year |
| Calendar.SplitCyclesUnique | etl.py:80 | a split in which no count reaches 4 is the only split of its sum |
| Calendar.SplitCyclesLastDay | etl.py:80 | the last day of a leap year that closes a 4- or 400-year cycle is where the split reaches 4 |
| Calendar.LeapYearByCycles | etl.py:80 | a year is a leap year exactly when it closes a 4-year cycle that is not a plain century |
| Calendar.DaysBeforeYearByCycles | etl.py:80 | the days before a year are its whole cycles' days |
| Calendar.YearCycles | etl.py:80 | every year is counted by whole 400-, 100-, 4- and 1-year cycles from year 1 |
| Calendar.FromOrdinal | etl.py:80 | the date of an ordinal is a valid date |
| Calendar.OrdinalRoundTrip | etl.py:80 | the ordinal of an ordinal's date is that ordinal |
| Calendar.DateRoundTrip | etl.py:80 | every valid date is the date of its own ordinal |
| Calendar.LastDayRoundTrip | etl.py:80 | the date round trip for December 31 of a leap year |
| Calendar.InYearRoundTrip | etl.py:80 | the date round trip for every other day |
| Calendar.LastDayOrdinal | etl.py:80 | December 31 of a leap year closing a cycle is valid, and its ordinal is the cycle's last |
| Calendar.FromOrdinalLastDay | etl.py:80 | the ordinal closing a cycle is December 31 of a leap year |
| Calendar.FromOrdinalOfCycles | etl.py:80 | an ordinal whose split has no count of 4 falls inside the year the split names, at the month and day of its rest |
| Calendar.ToOrdinalInjective | etl.py:80 | two valid dates with one ordinal are one date |
| Calendar.FromEpochMillis | etl.py:80 | `utcfromtimestamp` of ts milliseconds; characterised by Calendar.EpochMillisRoundTrip, Calendar.DateTimeRoundTrip and Calendar.EpochSecondsOfMillis |
| Calendar.EpochIsMidnightJanuaryFirst1970 | etl.py:80 | midnight of 1970-01-01 is millisecond 0 |
| Calendar.EpochSecondsOfMillis | etl.py:80 | the whole seconds of the datetime of ts milliseconds are floor(ts / 1000), before the epoch as well |
| Calendar.SecondsOfDay | etl.py:80 | a second count is its whole days plus the hour, minute and second of the day |
| Calendar.EpochMillisRoundTrip | etl.py:80 | converting milliseconds to a datetime and back gives them back |
| Calendar.DateTimeRoundTrip | etl.py:80 | a valid datetime of whole milliseconds is the datetime of its own epoch milliseconds |
| Calendar.TimeOfDaySplit | etl.py:89 | a second of the day splits back into its hour, minute and second |
| Calendar.WeekOfYear | etl.py:91 | the ISO week number is in 1..53 |
| Calendar.WeekOfThursday | etl.py:91 | the number of the week of a Thursday is in 1..53, and is w exactly when the Thursday is day 7w - 6 to 7w of its year |
| Calendar.JanuaryFourthInWeekOne | etl.py:91 | January 4 is always in week 1, as ISO 8601 defines it |
| Calendar.SameMonday | etl.py:91 | a day that is not a Sunday has the same Monday as the day after it |
| Calendar.WeekOfYearWithinWeek | etl.py:91 | Monday to Sunday of one week have one week number |
| Calendar.WeekOfYearNextWeek | etl.py:91 | from a Sunday to the next Monday the week number becomes 1 when the new week's Thursday falls on January 1 to 7, and otherwise the Sunday's number plus 1; with Calendar.WeekOfYearWithinWeek this fixes the ISO numbering |
| Calendar.MondayAfterSunday | etl.py:91 | the day after an ISO Sunday is an ISO Monday |
| Calendar.WeekOfMonday | etl.py:91 | a Monday's week number is that of the Thursday three days later |
| Calendar.WeekOfSunday | etl.py:91 | a Sunday's week number is that of the Thursday three days earlier |
| Calendar.WeekOfThursdayAfter | etl.py:91 | the Thursday a week after another is in the next week, or in week 1 when it falls on January 1 to 7 |
| Calendar.SevenDaysBefore | etl.py:91 | seven days before a day past the first week of its year is in the same year, seven days earlier |
| Calendar.NewYearsDay2021InWeek53 | etl.py:91 | 2021-01-01 lies in week 53, the last week of 2020 |
| Calendar.DayOfWeek | etl.py:94 | Spark's `dayofweek` of a date, 1 = Sunday; characterised by Calendar.EpochWasThursday, Calendar.DayOfWeekShift and Calendar.DayOfWeekIsShiftedIsoWeekday |
| Calendar.EpochWasThursday | etl.py:94 | 1970-01-01 has weekday 5 (Thursday, with Sunday as 1) |
| Calendar.DayOfWeekIsShiftedIsoWeekday | etl.py:94 | Spark's weekday is the ISO weekday shifted to start on Sunday |
| Calendar.DayOfWeekShift | etl.py:94 | a date k days after another has the weekday k later, cyclically |

## Left out

- The Spark session and its `hadoop-aws` package (etl.py:17-22) are library set-up.
- Reading `dl.cfg` and exporting the AWS credentials (etl.py:10-14, 162-165) are configuration I/O and secrets.
- The S3 paths and their `os.path.join` (etl.py:27, 36, 48, 55, 74, 97, 101, 117) are external locations.
- Parquet writes, `mode='overwrite'` and `partitionBy` (etl.py:37, 49, 75, 98, 118) are storage layout. Partitioning changes no row. Only whether the partition keys resolve is modelled (`References`).
- `repartition` (etl.py:64) changes only the physical distribution of rows. Only whether its key resolves is modelled.
- JSON decoding against the schemas (etl.py:30, 58, 102) happens inside Spark. The records arrive already typed, and a missing or malformed field is null.
- Doubles (`duration`, `length`, `registration`) are opaque bit patterns, because the job never computes with them.
- LogData.Stamp: `int(ts)/1000` is float division in Python. The model divides whole milliseconds exactly. The rounding of the float quotient to microseconds is not modelled.
- Time zones are not modelled; all time fields are the UTC ones. The UDF returns a naive `datetime`, which PySpark turns into an instant with `time.mktime`, in the Python worker's local zone. Spark's `hour`, `dayofmonth`, `month`, `year`, `weekofyear` and `dayofweek` then read that instant in the session zone. The model's fields are the job's only when the worker's zone is UTC and the session zone is UTC, or more generally when the worker's zone equals the session zone and that zone has no daylight-saving transitions and no offset changes.
- Dates use the proleptic Gregorian calendar of Python's `datetime`, and Spark 3's as well. Spark 2's hybrid Julian calendar before 1582 is not modelled.
- The song records are read twice from the same files (etl.py:30, 102). The model reads them once and passes the same sequence to both stages.
- Parallel and distributed execution is not modelled. The model gives single-threaded relational meaning, and order-free lemmas state that no output depends on row order.
- The schemas are local to `main` (etl.py:130, 142), so `song_schema` and `log_schema` are undefined inside `process_song_data` and `process_log_data`. Python stops there before any row is read. The model reads past it and uses the schemas as intended.
- `dayofweek` is used (etl.py:94) but not imported (etl.py:6). The log stage would stop there, after writing the users table (etl.py:75) and before the time and songplays tables. The model reads past it and builds the time and songplays tables as intended.
- `get_datetime` (etl.py:84) is never called, so it is not modelled.
- The time table is not deduplicated in the code, and it is not deduplicated here (`LogData.TimeTable`).
- Resolution is checked by exact, case-sensitive name. Spark's default case-insensitive resolution would not change any result here, because every name involved differs by more than case.

## Findings

| source | as written | input that shows it | evidently intended | confidence | as-written member | corrected member |
|---|---|---|---|---|---|---|
| etl.py:37 | the songs table is partitioned by `('year','id')` | any songs table: it has no column 'id' | partition by year and artist_id | not executed | References.SongsPartitionKeyAsWritten | References.SongsPartitionKeyCorrected |
| etl.py:64 | `df.repartition(df.user_id)` on the log frame | any log frame: its user column is `userId`; `user_id` is an alias made later | repartition by `userId` | not executed | References.RepartitionKeyAsWritten | References.RepartitionKeyCorrected |
| etl.py:105 | the join compares `df.artist == song_df.name` | any song frame: it has `artist_name`, not `name` | compare with `song_df.artist_name` | not executed | References.JoinArtistColumnAsWritten | References.JoinArtistColumnCorrected |
| etl.py:106-115 | the songplays projection selects 'start_time' and 'month' from the joined frame | any joined frame: those names are aliases of the time table only | start_time from the play's timestamp, and month from start_time | not executed | References.SongplaysProjectionAsWritten | LogData.SongplaysColumns |
| etl.py:114 | 'year' in the songplays projection | any joined frame: 'year' resolves to the song record's release year | the year of start_time, as for the time table | not executed | References.SongplaysYearAsWritten | LogData.SongplaysAgreeWithTimeTable |
