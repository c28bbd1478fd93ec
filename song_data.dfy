/**
 * `process_song_data`: the songs and artists tables, both projections of
 * the song metadata records (etl.py lines 33 and 40-45).
 */
module SongData {
  import opened Types
  import opened Frames
  import opened Schema

  /** A row of the songs table. */
  datatype SongRow = SongRow(
    song_id: Option<string>,
    title: Option<string>,
    artist_id: Option<string>,
    year: Option<int32>,
    duration: Option<Float64>)

  /** A row of the artists table: the artist columns of a song record, renamed. */
  datatype ArtistRow = ArtistRow(
    artist_id: Option<string>,
    name: Option<string>,
    location: Option<string>,
    latitude: Option<string>,
    longitude: Option<string>)

  function SongRowOf(s: SongRecord): SongRow {
    SongRow(s.song_id, s.title, s.artist_id, s.year, s.duration)
  }

  function ArtistRowOf(s: SongRecord): ArtistRow {
    ArtistRow(s.artist_id, s.artist_name, s.artist_location, s.artist_latitude, s.artist_longitude)
  }

  /**
   * The songs table: one row per song record, nothing merged or dropped,
   * each row carrying its record's song_id, title, artist_id, year and
   * duration.
   */
  function SongsTable(songs: seq<SongRecord>): (r: seq<SongRow>)
    ensures |r| == |songs|
    ensures forall i :: 0 <= i < |songs| ==>
      && r[i].song_id == songs[i].song_id && r[i].title == songs[i].title
      && r[i].artist_id == songs[i].artist_id && r[i].year == songs[i].year
      && r[i].duration == songs[i].duration
  {
    Select(songs, SongRowOf)
  }

  /**
   * The artists table: every artist projection of a song record, once.
   * Two rows are the same artist only if all five columns agree.
   */
  function ArtistsTable(songs: seq<SongRecord>): (r: seq<ArtistRow>)
    ensures Distinct(r)
    ensures forall a :: a in r <==> exists s :: s in songs && ArtistRowOf(s) == a
  {
    var projected := Select(songs, ArtistRowOf);
    assert forall a :: a in projected <==> exists s :: s in songs && ArtistRowOf(s) == a by {
      forall a
        ensures a in projected <==> exists s :: s in songs && ArtistRowOf(s) == a
      {
        SelectMembership(songs, ArtistRowOf, a);
      }
    }
    DropDuplicates(projected)
  }

  /** Records of one artist that differ in location are two artists rows, both kept. */
  lemma ArtistsTableKeepsLocations(songs: seq<SongRecord>, s1: SongRecord, s2: SongRecord)
    requires s1 in songs && s2 in songs
    requires s1.artist_id == s2.artist_id && s1.artist_location != s2.artist_location
    ensures ArtistRowOf(s1) in ArtistsTable(songs) && ArtistRowOf(s2) in ArtistsTable(songs)
    ensures ArtistRowOf(s1) != ArtistRowOf(s2) && ArtistRowOf(s1).artist_id == ArtistRowOf(s2).artist_id
  {
  }

  /** The artists table does not depend on the order or the repetition of the song records. */
  lemma ArtistsTableOrderFree(songs1: seq<SongRecord>, songs2: seq<SongRecord>)
    requires forall s :: s in songs1 <==> s in songs2
    ensures multiset(ArtistsTable(songs1)) == multiset(ArtistsTable(songs2))
  {
    var a1, a2 := ArtistsTable(songs1), ArtistsTable(songs2);
    forall a
      ensures multiset(a1)[a] == multiset(a2)[a]
    {
      DistinctMultiplicity(a1, a);
      DistinctMultiplicity(a2, a);
    }
  }
}
