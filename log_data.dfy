/**
 * `process_log_data`: the play events of the log, the users table, the
 * timestamp UDF, the time table and the songplays fact table (etl.py
 * lines 61-115).
 */
module LogData {
  import opened Types
  import opened Frames
  import opened Calendar
  import opened Schema

  // ---------------------------------------------------------------- plays

  /** A song play: the log event of the "NextSong" page. A null page is no play. */
  predicate IsPlay(e: LogEvent) {
    e.page == Some("NextSong")
  }

  /** `df.filter(df.page == 'NextSong')`: every play, as often as it occurs, and nothing else. */
  function PlayEvents(events: seq<LogEvent>): (r: seq<LogEvent>)
    ensures forall e :: e in r <==> e in events && e.page == Some("NextSong")
    ensures forall e :: multiset(r)[e] == if e.page == Some("NextSong") then multiset(events)[e] else 0
  {
    Where(events, IsPlay)
  }

  /** Filtering the plays again changes nothing. */
  lemma PlayEventsIdempotent(events: seq<LogEvent>)
    ensures PlayEvents(PlayEvents(events)) == PlayEvents(events)
  {
    WhereIdempotent(events, IsPlay);
  }

  // ---------------------------------------------------------------- users

  /** A row of the users table. */
  datatype UserRow = UserRow(
    user_id: Option<string>,
    first_name: Option<string>,
    last_name: Option<string>,
    gender: Option<string>,
    level: Option<string>)

  function UserRowOf(e: LogEvent): UserRow {
    UserRow(e.userId, e.firstName, e.lastName, e.gender, e.level)
  }

  /** `col("user_id").isNotNull()`: only a null user_id is dropped; an empty one is kept. */
  predicate HasUserId(u: UserRow) {
    u.user_id.Some?
  }

  /**
   * The users table of the plays: the user columns of every play whose
   * userId is not null, each distinct row once.
   */
  function UsersTable(plays: seq<LogEvent>): (r: seq<UserRow>)
    ensures Distinct(r)
    ensures forall u :: u in r <==> u.user_id.Some? && exists e :: e in plays && UserRowOf(e) == u
  {
    var projected := Select(plays, UserRowOf);
    var identified := Where(projected, HasUserId);
    assert forall u :: u in identified <==> u.user_id.Some? && exists e :: e in plays && UserRowOf(e) == u by {
      forall u
        ensures u in identified <==> u.user_id.Some? && exists e :: e in plays && UserRowOf(e) == u
      {
        SelectMembership(plays, UserRowOf, u);
      }
    }
    DropDuplicates(identified)
  }

  /** Every play with a user id, the empty one included, has its users row. */
  lemma UsersTableComplete(plays: seq<LogEvent>, e: LogEvent)
    requires e in plays && e.userId.Some?
    ensures UserRowOf(e) in UsersTable(plays)
  {
  }

  /** A user whose level changed between plays has one users row per level. */
  lemma UsersTableKeepsLevels(plays: seq<LogEvent>, e1: LogEvent, e2: LogEvent)
    requires e1 in plays && e2 in plays && e1.userId.Some?
    requires e1.userId == e2.userId && e1.level != e2.level
    ensures UserRowOf(e1) in UsersTable(plays) && UserRowOf(e2) in UsersTable(plays)
    ensures UserRowOf(e1) != UserRowOf(e2)
  {
  }

  /** The users table does not depend on the order or the repetition of the plays. */
  lemma UsersTableOrderFree(plays1: seq<LogEvent>, plays2: seq<LogEvent>)
    requires forall e :: e in plays1 <==> e in plays2
    ensures multiset(UsersTable(plays1)) == multiset(UsersTable(plays2))
  {
    var u1, u2 := UsersTable(plays1), UsersTable(plays2);
    forall u
      ensures multiset(u1)[u] == multiset(u2)[u]
    {
      DistinctMultiplicity(u1, u);
      DistinctMultiplicity(u2, u);
    }
  }

  // ------------------------------------------------------------ timestamps

  /** Why `datetime.utcfromtimestamp(int(x) / 1000)` raises for an event. */
  datatype TimeError =
    | NullTimestamp                 // int(None) raises TypeError
    | YearOutOfRange(ts: int)       // the date falls outside years 1 to 9999

  /** Python's datetime years. */
  const MinYear := 1
  const MaxYear := 9999

  /**
   * The `get_timestamp` UDF: the UTC datetime `ts` milliseconds after the
   * epoch, or the error Python raises.
   */
  function Stamp(ts: Option<int64>): (r: Result<UtcDateTime, TimeError>)
    ensures ts.None? <==> r == Failure(NullTimestamp)
    ensures r.Success? ==> ts.Some? && ToEpochMillis(r.value) == ts.value as int
    ensures r.Success? ==> MinYear <= r.value.date.year <= MaxYear
    ensures ts.Some? && r.Failure? ==> r == Failure(YearOutOfRange(ts.value as int))
  {
    match ts
    case None => Failure(NullTimestamp)
    case Some(ms) =>
      var t := FromEpochMillis(ms as int);
      EpochMillisRoundTrip(ms as int);
      if MinYear <= t.date.year <= MaxYear then Success(t) else Failure(YearOutOfRange(ms as int))
  }

  /** Only a null timestamp or one beyond the years 1 to 9999 fails; every other one succeeds. */
  lemma StampSucceeds(ms: int64)
    requires MinYear <= FromEpochMillis(ms as int).date.year <= MaxYear
    ensures Stamp(Some(ms)) == Success(FromEpochMillis(ms as int))
  {
  }

  /** A play together with the value of its `timestamp` column. */
  datatype StampedEvent = StampedEvent(event: LogEvent, timestamp: UtcDateTime)

  /** A play with its `timestamp` column, or the error its stamp raises. */
  function StampEvent(e: LogEvent): (r: Result<StampedEvent, TimeError>)
    ensures r.Success? <==> Stamp(e.ts).Success?
    ensures r.Success? ==> r.value.event == e && Stamp(e.ts) == Success(r.value.timestamp)
    ensures r.Failure? ==> Stamp(e.ts) == Failure(r.error)
  {
    match Stamp(e.ts)
    case Success(t) => Success(StampedEvent(e, t))
    case Failure(err) => Failure(err)
  }

  /**
   * `df.withColumn('timestamp', get_timestamp(df.ts))` once it is
   * evaluated: every play stamped, in order, or the error of a play
   * whose stamp fails (that error aborts the Spark job).
   */
  function StampAll(plays: seq<LogEvent>): (r: Result<seq<StampedEvent>, TimeError>)
    ensures r.Success? <==> forall i :: 0 <= i < |plays| ==> StampEvent(plays[i]).Success?
    ensures r.Success? ==> |r.value| == |plays| && forall i :: 0 <= i < |plays| ==> StampEvent(plays[i]) == Success(r.value[i])
    ensures r.Failure? ==> exists i :: 0 <= i < |plays| && StampEvent(plays[i]) == Failure(r.error)
  {
    WithColumn(plays, StampEvent)
  }

  // ------------------------------------------------------------ time table

  /** A row of the time table. */
  datatype TimeRow = TimeRow(
    start_time: UtcDateTime,
    hour: int,
    day: int,
    week: int,
    month: int,
    year: int,
    weekday: int)

  /**
   * The time columns of a timestamp: Spark's `hour`, `dayofmonth`,
   * `weekofyear` (ISO 8601), `month`, `year` and `dayofweek` (1 = Sunday
   * to 7 = Saturday), in UTC.
   */
  function TimeRowOf(t: UtcDateTime): (row: TimeRow)
    ensures row.start_time == t
    ensures 0 <= row.hour <= 23 && 1 <= row.month <= 12
    ensures 1 <= row.day <= DaysInMonth(row.year, row.month)
    ensures 1 <= row.week <= 53 && 1 <= row.weekday <= 7
  {
    TimeRow(t, t.hour, t.date.day, WeekOfYear(t.date), t.date.month, t.date.year, DayOfWeek(t.date))
  }

  /** The time table: one row per play (the job does not deduplicate it). */
  function TimeTable(stamped: seq<StampedEvent>): (r: seq<TimeRow>)
    ensures |r| == |stamped|
    ensures forall i :: 0 <= i < |stamped| ==> r[i] == TimeRowOf(stamped[i].timestamp)
  {
    Select(stamped, (s: StampedEvent) => TimeRowOf(s.timestamp))
  }

  /**
   * The time row of a timestamp holds that timestamp: reassembling its
   * year, month, day and hour with the minute and second of start_time
   * gives floor(ts / 1000) seconds after the epoch.
   */
  lemma TimeRowReassembles(ms: int64, t: UtcDateTime)
    requires Stamp(Some(ms)) == Success(t)
    ensures var row := TimeRowOf(t);
      (ToOrdinal(Date(row.year, row.month, row.day)) - EpochOrdinal) * 86400
        + row.hour * 3600 + t.minute * 60 + t.second == ms as int / 1000
  {
    EpochSecondsOfMillis(ms as int);
  }

  /** Distinct millisecond timestamps have distinct time rows; equal ones equal rows. */
  lemma TimeRowInjective(ms1: int64, ms2: int64, t1: UtcDateTime, t2: UtcDateTime)
    requires Stamp(Some(ms1)) == Success(t1) && Stamp(Some(ms2)) == Success(t2)
    ensures TimeRowOf(t1) == TimeRowOf(t2) <==> ms1 == ms2
  {
  }

  /**
   * The weekday column of timestamps k days apart: k weekdays later,
   * cyclically. A day later is the next weekday (Saturday, 7, is
   * followed by Sunday, 1), and a week later is the same weekday.
   */
  lemma WeekdayShift(t: UtcDateTime, u: UtcDateTime, k: int)
    requires ToEpochMillis(u) == ToEpochMillis(t) + k * 86_400_000
    ensures DayOfWeek(u.date) == (DayOfWeek(t.date) - 1 + k) % 7 + 1
  {
    DaysApart(t, u, k);
    DayOfWeekShift(t.date, u.date, k);
  }

  /** Two datetimes k whole days of milliseconds apart have dates k days apart. */
  lemma DaysApart(t: UtcDateTime, u: UtcDateTime, k: int)
    requires ToEpochMillis(u) == ToEpochMillis(t) + k * 86_400_000
    ensures ToOrdinal(u.date) == ToOrdinal(t.date) + k
  {
    var d := ToOrdinal(u.date) - ToOrdinal(t.date) - k;
    var c := (t.hour * 3600 + t.minute * 60 + t.second) * 1000 + t.microsecond / 1000;
    var cu := (u.hour * 3600 + u.minute * 60 + u.second) * 1000 + u.microsecond / 1000;
    assert 0 <= c < 86_400_000 && 0 <= cu < 86_400_000;
    assert d * 86_400_000 == c - cu;
  }

  /** The epoch, timestamp 0, is 1970-01-01 00:00 UTC, a Thursday (weekday 5), in week 1. */
  lemma EpochTimeRow()
    ensures var t := DateTime(Date(1970, 1, 1), 0, 0, 0, 0);
      Stamp(Some(0)) == Success(t) && TimeRowOf(t).weekday == 5 && TimeRowOf(t).week == 1
  {
    var t := DateTime(Date(1970, 1, 1), 0, 0, 0, 0);
    assert FromEpochMillis(0) == t by {
      DateTimeRoundTrip(t);
      EpochIsMidnightJanuaryFirst1970();
    }
    EpochWasThursday();
    assert IsoWeekday(ToOrdinal(t.date)) == 4;
    DateRoundTrip(t.date);
  }

  // ------------------------------------------------------------- songplays

  /** The join condition: the play's song is the record's title and its artist the record's artist name (SQL `=`). */
  predicate MatchesSong(p: StampedEvent, s: SongRecord) {
    SqlEquals(p.event.song, s.title) && SqlEquals(p.event.artist, s.artist_name)
  }

  /** A row of the songplays fact table. */
  datatype SongplayRow = SongplayRow(
    start_time: UtcDateTime,
    user_id: Option<string>,
    level: Option<string>,
    song_id: Option<string>,
    artist_id: Option<string>,
    session_id: Option<int32>,
    location: Option<string>,
    user_agent: Option<string>,
    year: int,
    month: int)

  /** The projection of a matched (play, song record) pair; year and month are those of start_time. */
  function SongplayRowOf(m: (StampedEvent, SongRecord)): SongplayRow {
    var (p, s) := m;
    SongplayRow(p.timestamp, p.event.userId, p.event.level, s.song_id, s.artist_id,
                p.event.sessionId, p.event.location, p.event.userAgent,
                p.timestamp.date.year, p.timestamp.date.month)
  }

  /** The songplays table: the inner join of the stamped plays with the song records, projected. */
  function SongplaysTable(stamped: seq<StampedEvent>, songs: seq<SongRecord>): seq<SongplayRow> {
    Select(InnerJoin(stamped, songs, MatchesSong), SongplayRowOf)
  }

  /** Every songplay row comes from a play and a song record it matches. */
  lemma SongplaysSound(stamped: seq<StampedEvent>, songs: seq<SongRecord>, row: SongplayRow)
    requires row in SongplaysTable(stamped, songs)
    ensures exists p, s :: p in stamped && s in songs && MatchesSong(p, s) && row == SongplayRowOf((p, s))
  {
    SelectMembership(InnerJoin(stamped, songs, MatchesSong), SongplayRowOf, row);
    var m :| m in InnerJoin(stamped, songs, MatchesSong) && SongplayRowOf(m) == row;
    JoinMembership(stamped, songs, MatchesSong, m.0, m.1);
  }

  /**
   * The columns of a songplay row: start_time, user_id, level, session_id,
   * location and user_agent from its play, song_id and artist_id from the
   * song record whose title and artist name equal the play's non-null song
   * and artist, and year and month those of start_time.
   */
  lemma SongplaysColumns(stamped: seq<StampedEvent>, songs: seq<SongRecord>, row: SongplayRow)
    requires row in SongplaysTable(stamped, songs)
    ensures exists p, s ::
              && p in stamped && s in songs
              && p.event.song.Some? && p.event.song == s.title
              && p.event.artist.Some? && p.event.artist == s.artist_name
              && row.start_time == p.timestamp && row.user_id == p.event.userId
              && row.level == p.event.level && row.session_id == p.event.sessionId
              && row.location == p.event.location && row.user_agent == p.event.userAgent
              && row.song_id == s.song_id && row.artist_id == s.artist_id
              && row.year == p.timestamp.date.year && row.month == p.timestamp.date.month
  {
    SongplaysSound(stamped, songs, row);
  }

  /** Every play and song record that match give a songplay row. */
  lemma SongplaysComplete(stamped: seq<StampedEvent>, songs: seq<SongRecord>, p: StampedEvent, s: SongRecord)
    requires p in stamped && s in songs && MatchesSong(p, s)
    ensures SongplayRowOf((p, s)) in SongplaysTable(stamped, songs)
  {
    JoinMembership(stamped, songs, MatchesSong, p, s);
    SelectMembership(InnerJoin(stamped, songs, MatchesSong), SongplayRowOf, SongplayRowOf((p, s)));
  }

  /** The join condition seen from one play. */
  function MatchesOf(p: StampedEvent): SongRecord -> bool {
    s => MatchesSong(p, s)
  }

  /** The song records a play matches. */
  function Matches(p: StampedEvent, songs: seq<SongRecord>): (r: seq<SongRecord>)
    ensures forall s :: s in r <==> s in songs && MatchesSong(p, s)
  {
    Where(songs, MatchesOf(p))
  }

  /** The plays contribute their songplay rows independently: a play added adds its own rows. */
  lemma SongplaysAppend(stamped: seq<StampedEvent>, p: StampedEvent, songs: seq<SongRecord>)
    ensures SongplaysTable(stamped + [p], songs) == SongplaysTable(stamped, songs) + SongplaysTable([p], songs)
  {
    var j, j1 := InnerJoin(stamped, songs, MatchesSong), InnerJoin([p], songs, MatchesSong);
    assert InnerJoin(stamped + [p], songs, MatchesSong) == j + j1 by {
      JoinAppend(stamped, [p], songs, MatchesSong);
    }
    SelectAppend(j, j1, SongplayRowOf);
  }

  /**
   * Fan-out: one play gives exactly one songplay row per song record it
   * matches, in the order of the records, and none when it matches none.
   */
  lemma SongplaysFanOut(p: StampedEvent, songs: seq<SongRecord>)
    ensures var rows, ms := SongplaysTable([p], songs), Matches(p, songs);
      |rows| == |ms| && forall i :: 0 <= i < |rows| ==> rows[i] == SongplayRowOf((p, ms[i]))
  {
    assert InnerJoin([p], songs, MatchesSong) == Probe(p, songs, MatchesSong) by {
      assert [p][1..] == [];
    }
    ProbeMatches(p, songs, MatchesSong, MatchesOf(p));
  }

  /** A play with a null song or artist matches no record and gives no songplay row. */
  lemma NullNeverMatches(p: StampedEvent, songs: seq<SongRecord>)
    requires p.event.song.None? || p.event.artist.None?
    ensures SongplaysTable([p], songs) == []
  {
    SongplaysFanOut(p, songs);
    EmptyWithoutMembers(Matches(p, songs));
  }

  /** A songplay row's year and month are those of its start_time's row in the time table. */
  lemma SongplaysAgreeWithTimeTable(stamped: seq<StampedEvent>, songs: seq<SongRecord>, row: SongplayRow)
    requires row in SongplaysTable(stamped, songs)
    ensures exists tr :: tr in TimeTable(stamped) && tr.start_time == row.start_time
                         && tr.year == row.year && tr.month == row.month
  {
    SongplaysSound(stamped, songs, row);
    var p, s :| p in stamped && s in songs && MatchesSong(p, s) && row == SongplayRowOf((p, s));
    var i :| 0 <= i < |stamped| && stamped[i] == p;
    assert TimeTable(stamped)[i] == TimeRowOf(p.timestamp);
  }
}
