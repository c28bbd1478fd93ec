/**
 * The columns of the frames the job builds, and which of the job's column
 * references resolve against them as written.
 */
module References {
  import opened Types
  import opened Schema
  import opened Columns

  /** The columns of the songs table, `df.select('song_id', 'title', 'artist_id', 'year', 'duration')`. */
  const SongsTableColumns: seq<Field> := [
    Column(song_id, StringType),
    Column(title, StringType),
    Column(artist_id, StringType),
    Column(year, IntegerType),
    Column(duration, DoubleType)]

  /** The log frame after `withColumn('timestamp', ...)` and `withColumn("datetime", ...)`. */
  const StampedLogColumns: seq<Field> :=
    LogSchema + [Column(timestamp, TimestampType), Column(datetime, TimestampType)]

  /** The frame `df.join(song_df, ...)`: the stamped log columns followed by the song columns. */
  const JoinedColumns: seq<Field> := StampedLogColumns + SongSchema

  /** As written, the songs table is partitioned by ('year', 'id'); the songs table has no column 'id'. */
  lemma SongsPartitionKeyAsWritten()
    ensures Resolve(SongsTableColumns, id) == Failure(Missing(id))
  {
    assert forall i :: 0 <= i < |SongsTableColumns| ==> SongsTableColumns[i].name != id;
    ResolveMissing(SongsTableColumns, id);
  }

  /** Partitioned by year and artist, as the job means to: both keys resolve. */
  lemma SongsPartitionKeyCorrected()
    ensures Resolve(SongsTableColumns, year) == Success(3)
    ensures Resolve(SongsTableColumns, artist_id) == Success(2)
  {
    assert Unique(SongsTableColumns, year, 3);
    ResolveFound(SongsTableColumns, year, 3);
    assert Unique(SongsTableColumns, artist_id, 2);
    ResolveFound(SongsTableColumns, artist_id, 2);
  }

  /** As written, the users step repartitions by `df.user_id`, a column the log frame does not have yet. */
  lemma RepartitionKeyAsWritten()
    ensures Resolve(LogSchema, user_id) == Failure(Missing(user_id))
  {
    assert forall i :: 0 <= i < |LogSchema| ==> LogSchema[i].name != user_id;
    ResolveMissing(LogSchema, user_id);
  }

  /** The log frame's user column is `userId`, the last one, and it resolves. */
  lemma RepartitionKeyCorrected()
    ensures Resolve(LogSchema, userId) == Success(17)
  {
    assert Unique(LogSchema, userId, 17);
    ResolveFound(LogSchema, userId, 17);
  }

  /** As written, the join condition reads `song_df.name`; the song frame calls that column `artist_name`. */
  lemma JoinArtistColumnAsWritten()
    ensures Resolve(SongSchema, name) == Failure(Missing(name))
  {
    assert forall i :: 0 <= i < |SongSchema| ==> SongSchema[i].name != name;
    ResolveMissing(SongSchema, name);
  }

  /** The song frame's artist name column is `artist_name`, and it resolves. */
  lemma JoinArtistColumnCorrected()
    ensures Resolve(SongSchema, artist_name) == Success(4)
  {
    assert Unique(SongSchema, artist_name, 4);
    ResolveFound(SongSchema, artist_name, 4);
  }

  /**
   * As written, the songplays projection names 'start_time' and 'month',
   * which the joined frame does not have: they are aliases of the time
   * table only.
   */
  lemma SongplaysProjectionAsWritten()
    ensures Resolve(JoinedColumns, start_time) == Failure(Missing(start_time))
    ensures Resolve(JoinedColumns, month) == Failure(Missing(month))
  {
    assert forall i :: 0 <= i < |JoinedColumns| ==> JoinedColumns[i].name != start_time && JoinedColumns[i].name != month;
    ResolveMissing(JoinedColumns, start_time);
    ResolveMissing(JoinedColumns, month);
  }

  /** As written, the songplays column 'year' would be the song's release year, the last column of the song schema. */
  lemma SongplaysYearAsWritten()
    ensures Resolve(JoinedColumns, year) == Success(|StampedLogColumns| + 9)
    ensures JoinedColumns[|StampedLogColumns| + 9] == SongSchema[9] == Column(year, IntegerType)
  {
    assert Unique(JoinedColumns, year, 29);
    ResolveFound(JoinedColumns, year, 29);
  }
}
