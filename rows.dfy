/**
 * The rows of the seven tables. Every column of a CREATE TABLE becomes a field
 * of the same name; a column declared without `not null` (and not a primary
 * key) becomes an `Option`. `varchar(n)`/`char(n)` become strings and the
 * integer types `int`, without their width limits.
 */
module Rows {
  import opened Wrappers
  import opened Calendar

  /**
   * A 4-byte `real` value, kept as its bit pattern: the transforms copy these
   * columns and never compute with them.
   */
  datatype Real4 = Real4(bits: bv32)

  /** A row of `staging_events`: one logged interaction, landed from the event log. */
  datatype StagingEvent = StagingEvent(
    artist: Option<string>,
    auth: string,
    firstName: Option<string>,
    gender: Option<string>,
    itemInSession: int,
    lastName: Option<string>,
    length: Option<Real4>,
    level: string,
    location: Option<string>,
    httpMethod: string,       // the `method` column (`method` is a Dafny keyword)
    page: string,
    registration: Option<Real4>,
    sessionId: int,
    song: Option<string>,
    status: int,
    ts: int,
    userAgent: Option<string>,
    userId: string)

  /** A row of `staging_songs`: one song-metadata record. */
  datatype StagingSong = StagingSong(
    artist_id: string,
    artist_location: Option<string>,
    artist_latitude: Option<Real4>,
    artist_longitude: Option<Real4>,
    artist_name: string,
    duration: Real4,
    num_songs: int,
    song_id: string,
    title: string,
    year: int)

  /**
   * A row of `songplays` as the INSERT supplies it. The `songplay_id` column is
   * filled by the warehouse's IDENTITY generator and is not part of the row here.
   */
  datatype SongplayRow = SongplayRow(
    start_time: Timestamp,
    user_id: string,
    song_id: string,
    artist_id: string,
    session_id: int,
    location: Option<string>,
    user_agent: Option<string>)

  /** A row of `users`. */
  datatype UserRow = UserRow(
    user_id: string,
    first_name: Option<string>,
    last_name: Option<string>,
    gender: Option<string>,
    level: string)

  /** A row of `songs`. */
  datatype SongRow = SongRow(
    song_id: string,
    title: string,
    artist_id: string,
    year: int,
    duration: Real4)

  /** A row of `artists`. */
  datatype ArtistRow = ArtistRow(
    artist_id: string,
    name: string,
    location: Option<string>,
    latitude: Option<Real4>,
    longitude: Option<Real4>)

  /** A row of `times`: a timestamp and its calendar breakdown. */
  datatype TimeRow = TimeRow(
    start_time: Timestamp,
    hour: int,
    day: int,
    week: int,
    month: int,
    year: int,
    weekday: bool)
}
