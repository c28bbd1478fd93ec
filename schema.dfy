/**
 * The records the job reads: one song metadata file per song and one log
 * event per user action, with the fields of the StructType schemas built
 * in `main` (etl.py lines 130-160). Spark reads every JSON field as
 * nullable, so every field is an Option; a missing or malformed JSON value
 * is None.
 */
module Schema {
  import opened Types
  import opened Columns

  /** The Spark SQL types the schemas use. */
  datatype ColumnType = StringType | DoubleType | IntegerType | LongType | TimestampType

  /**
   * Every column name the job mentions, in the schemas, in aliases and in
   * column references. Names are compared only for equality, so an
   * enumeration stands for the strings; `method'` is the column "method"
   * (`method` is a Dafny keyword).
   */
  datatype ColumnName =
    // song_schema
    | artist_id | artist_latitude | artist_location | artist_longitude | artist_name
    | duration | num_songs | song_id | title | year
    // log_schema
    | artist | auth | gender | lastName | length | level | firstName | itemInSession
    | location | method' | page | registration | sessionId | song | status | ts
    | userAgent | userId
    // columns added by withColumn and names given by alias
    | timestamp | datetime | name | latitude | longitude | user_id | first_name | last_name
    | start_time | hour | day | week | month | weekday | session_id | user_agent
    // the partition key of the songs table
    | id

  /** A field of a StructType schema: a named, typed column. */
  type Field = Column<ColumnName, ColumnType>

  /** A song metadata record, fields in the order of `song_schema`. */
  datatype SongRecord = SongRecord(
    artist_id: Option<string>,
    artist_latitude: Option<string>,
    artist_location: Option<string>,
    artist_longitude: Option<string>,
    artist_name: Option<string>,
    duration: Option<Float64>,
    num_songs: Option<int32>,
    song_id: Option<string>,
    title: Option<string>,
    year: Option<int32>)

  /** A user-activity log event, fields in the order of `log_schema`. */
  datatype LogEvent = LogEvent(
    artist: Option<string>,
    auth: Option<string>,
    gender: Option<string>,
    lastName: Option<string>,
    length: Option<Float64>,
    level: Option<string>,
    firstName: Option<string>,
    itemInSession: Option<int32>,
    location: Option<string>,
    method': Option<string>,
    page: Option<string>,
    registration: Option<Float64>,
    sessionId: Option<int32>,
    song: Option<string>,
    status: Option<int32>,
    ts: Option<int64>,
    userAgent: Option<string>,
    userId: Option<string>)

  /** `song_schema`: the columns of a song metadata frame. */
  const SongSchema: seq<Field> := [
    Column(artist_id, StringType),
    Column(artist_latitude, StringType),
    Column(artist_location, StringType),
    Column(artist_longitude, StringType),
    Column(artist_name, StringType),
    Column(duration, DoubleType),
    Column(num_songs, IntegerType),
    Column(song_id, StringType),
    Column(title, StringType),
    Column(year, IntegerType)]

  /** `log_schema`: the columns of a log event frame. */
  const LogSchema: seq<Field> := [
    Column(artist, StringType),
    Column(auth, StringType),
    Column(gender, StringType),
    Column(lastName, StringType),
    Column(length, DoubleType),
    Column(level, StringType),
    Column(firstName, StringType),
    Column(itemInSession, IntegerType),
    Column(location, StringType),
    Column(method', StringType),
    Column(page, StringType),
    Column(registration, DoubleType),
    Column(sessionId, IntegerType),
    Column(song, StringType),
    Column(status, IntegerType),
    Column(ts, LongType),
    Column(userAgent, StringType),
    Column(userId, StringType)]
}
