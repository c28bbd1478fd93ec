/**
 * The job of `main`: `process_song_data` then `process_log_data`, over the
 * song metadata records and the log events they read. The song records
 * are read twice (etl.py lines 30 and 102) from the same files; the model
 * reads them once and hands the same sequence to both stages.
 */
module Etl {
  import opened Types
  import opened Frames
  import opened Schema
  import opened SongData
  import opened LogData

  /** The tables `process_song_data` writes. */
  datatype SongTables = SongTables(songs: seq<SongRow>, artists: seq<ArtistRow>)

  /** The two tables written after the timestamp column is evaluated. */
  datatype TimedTables = TimedTables(time: seq<TimeRow>, songplays: seq<SongplayRow>)

  /**
   * What `process_log_data` writes: the users table, written first, and
   * then either the time and songplays tables or the error of the stamp
   * that aborted the job.
   */
  datatype LogTables = LogTables(users: seq<UserRow>, timed: Result<TimedTables, TimeError>)

  datatype DataLake = DataLake(songTables: SongTables, logTables: LogTables)

  function ProcessSongData(songs: seq<SongRecord>): SongTables {
    SongTables(SongsTable(songs), ArtistsTable(songs))
  }

  function ProcessLogData(events: seq<LogEvent>, songs: seq<SongRecord>): LogTables {
    var plays := PlayEvents(events);
    var timed :=
      match StampAll(plays)
      case Failure(err) => Failure(err)
      case Success(stamped) => Success(TimedTables(TimeTable(stamped), SongplaysTable(stamped, songs)));
    LogTables(UsersTable(plays), timed)
  }

  function Run(songs: seq<SongRecord>, events: seq<LogEvent>): DataLake {
    DataLake(ProcessSongData(songs), ProcessLogData(events, songs))
  }

  /**
   * Every users row is the user of a play whose userId is not null; every
   * such play has its row, whatever happens to the timestamps; and no two
   * rows are equal.
   */
  lemma UsersRowsArePlayers(songs: seq<SongRecord>, events: seq<LogEvent>, u: UserRow)
    ensures var users := Run(songs, events).logTables.users;
      && Distinct(users)
      && (u in users <==> u.user_id.Some? && exists e :: e in events && e.page == Some("NextSong") && UserRowOf(e) == u)
  {
    var plays := PlayEvents(events);
    if u in UsersTable(plays) {
      var e :| e in plays && UserRowOf(e) == u;
      assert e in events && e.page == Some("NextSong");
    }
  }

  /** A log event that is not a play never reaches any log table, even when it carries a user. */
  lemma NonPlaysIgnored(songs: seq<SongRecord>, events: seq<LogEvent>, e: LogEvent)
    requires e.page != Some("NextSong")
    ensures Run(songs, events + [e]).logTables == Run(songs, events).logTables
  {
    assert PlayEvents(events + [e]) == PlayEvents(events) by {
      WhereAppendRejected(events, e, IsPlay);
    }
  }

  /**
   * The time and songplays tables are written exactly when every play has
   * a timestamp that Python can convert; otherwise the job fails with the
   * error of such a play.
   */
  lemma TimedTablesWritten(songs: seq<SongRecord>, events: seq<LogEvent>)
    ensures var timed := Run(songs, events).logTables.timed;
      && (timed.Success? <==> forall e :: e in events && e.page == Some("NextSong") ==> Stamp(e.ts).Success?)
      && (timed.Failure? ==> exists e :: e in events && e.page == Some("NextSong") && Stamp(e.ts) == Failure(timed.error))
  {
    var plays := PlayEvents(events);
    var r := StampAll(plays);
    if r.Success? {
      forall e | e in events && e.page == Some("NextSong")
        ensures Stamp(e.ts).Success?
      {
        var i :| 0 <= i < |plays| && plays[i] == e;
        assert StampEvent(plays[i]).Success?;
      }
    } else {
      var i :| 0 <= i < |plays| && StampEvent(plays[i]) == Failure(r.error);
      assert plays[i] in events && plays[i].page == Some("NextSong");
    }
  }

  /**
   * Referential integrity of the fact table: each songplay row's song is
   * a row of the songs table, its artist a row of the artists table, its
   * start_time a row of the time table with the same year and month, and
   * a non-null user_id a row of the users table.
   */
  lemma SongplaysReferenceDimensions(songs: seq<SongRecord>, events: seq<LogEvent>, row: SongplayRow)
    requires Run(songs, events).logTables.timed.Success?
    requires row in Run(songs, events).logTables.timed.value.songplays
    ensures exists s :: s in Run(songs, events).songTables.songs && s.song_id == row.song_id && s.artist_id == row.artist_id
    ensures exists a :: a in Run(songs, events).songTables.artists && a.artist_id == row.artist_id
    ensures exists tr :: tr in Run(songs, events).logTables.timed.value.time && tr.start_time == row.start_time
                         && tr.year == row.year && tr.month == row.month
    ensures row.user_id.Some? ==> exists u :: u in Run(songs, events).logTables.users && u.user_id == row.user_id
  {
    var plays := PlayEvents(events);
    var stamped := StampAll(plays).value;
    assert Run(songs, events).logTables.timed.value == TimedTables(TimeTable(stamped), SongplaysTable(stamped, songs));
    SongplaySongIsCatalogued(songs, stamped, row);
    SongplaysAgreeWithTimeTable(stamped, songs, row);
    SongplayUserIsListed(plays, stamped, songs, row);
  }

  /** A songplay row's song and artist are rows of the songs and artists tables. */
  lemma SongplaySongIsCatalogued(songs: seq<SongRecord>, stamped: seq<StampedEvent>, row: SongplayRow)
    requires row in SongplaysTable(stamped, songs)
    ensures exists s :: s in SongsTable(songs) && s.song_id == row.song_id && s.artist_id == row.artist_id
    ensures exists a :: a in ArtistsTable(songs) && a.artist_id == row.artist_id
  {
    SongplaysSound(stamped, songs, row);
    var p, s :| p in stamped && s in songs && MatchesSong(p, s) && row == SongplayRowOf((p, s));
    var k :| 0 <= k < |songs| && songs[k] == s;
    assert SongsTable(songs)[k].song_id == s.song_id && SongsTable(songs)[k].artist_id == s.artist_id;
    assert ArtistRowOf(s) in ArtistsTable(songs);
  }

  /** The user of a songplay row with a non-null user_id is a row of the users table. */
  lemma SongplayUserIsListed(plays: seq<LogEvent>, stamped: seq<StampedEvent>, songs: seq<SongRecord>, row: SongplayRow)
    requires StampAll(plays) == Success(stamped)
    requires row in SongplaysTable(stamped, songs)
    ensures row.user_id.Some? ==> exists u :: u in UsersTable(plays) && u.user_id == row.user_id
  {
    SongplaysSound(stamped, songs, row);
    var p, s :| p in stamped && s in songs && MatchesSong(p, s) && row == SongplayRowOf((p, s));
    var i :| 0 <= i < |stamped| && stamped[i] == p;
    var e := plays[i];
    assert p.event == e by {
      assert StampEvent(e) == Success(p);
    }
    if row.user_id.Some? {
      var u := UserRowOf(e);
      assert u.user_id == row.user_id;
      assert u in UsersTable(plays) by {
        assert e in plays && e.userId.Some?;
      }
    }
  }
}
