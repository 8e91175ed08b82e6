/**
 * The five INSERT ... SELECT transforms that fill the star schema from the
 * staging tables: four projections (`times`, `users`, `songs`, `artists`)
 * and the join that builds the `songplays` fact table. Each transform is a
 * function from the staging rows to the rows it inserts, in scan order.
 */
module Transforms {
  import opened Wrappers
  import opened Calendar
  import opened Rows

  /** No two entries of `ks` are equal: what a primary key on that column demands. */
  predicate Distinct<K(==)>(ks: seq<K>)
  {
    forall i, j :: 0 <= i < j < |ks| ==> ks[i] != ks[j]
  }

  // ---------------------------------------------------------------------
  // times
  // ---------------------------------------------------------------------

  /**
   * The weekday test of the times transform: `dayofweek` in (1,2,3,4,5),
   * where `dayofweek` counts 0 = Sunday to 6 = Saturday.
   */
  predicate IsWeekday(t: Timestamp)
  {
    DayOfWeek(t) in {1, 2, 3, 4, 5}
  }

  /** The calendar date a `times` row names; its `year` column numbers years with no year 0. */
  function RowDate(r: TimeRow): Date
  {
    Date(AstronomicalYear(r.year), r.month, r.day)
  }

  /** The `times` row the transform derives from one event's `ts` (milliseconds). */
  function TimeRowOf(ts: int): (r: TimeRow)
    ensures r.start_time == StartTime(ts)
    ensures r.year != 0 && ValidDate(RowDate(r))
    ensures 0 <= r.hour < 24
    ensures 1 <= r.week <= 53
    ensures var start := DaysFromCivil(RowDate(r)) * 86400 + r.hour * 3600;
            start <= r.start_time < start + 3600
  {
    var t := StartTime(ts);
    FieldsLocateTimestamp(t);
    TimeRow(t, Hour(t), Day(t), Week(t), Month(t), Year(t), IsWeekday(t))
  }

  /**
   * An event stamped within the second `t` of hour `h` of date `d` gets a row
   * with that second as `start_time` and `d` and `h` as its calendar fields.
   */
  lemma TimeRowOfDateAndHour(d: Date, h: int, s: int, t: Timestamp, ts: int)
    requires ValidDate(d) && 0 <= h < 24 && 0 <= s < 3600
    requires t == DaysFromCivil(d) * 86400 + h * 3600 + s
    requires 0 <= ts && 1000 * t <= ts < 1000 * (t + 1)
    ensures var r := TimeRowOf(ts);
            r.start_time == t && r.hour == h && RowDate(r) == d
  {
    StartTimeIsContainingSecond(ts, t);
    FieldsOfDateAndHour(d, h, s, t);
  }

  /**
   * The weekday flag is true exactly on Mondays to Fridays, judged by
   * Sakamoto's day-of-week formula (0 = Sunday) applied to the row's own date.
   */
  lemma TimeRowWeekday(ts: int)
    ensures var r := TimeRowOf(ts);
            r.weekday <==> 1 <= SakamotoDayOfWeek(RowDate(r)) <= 5
  {
    var t := StartTime(ts);
    var d := DateOf(t);
    assert DaysFromCivil(d) == DayNumber(t);
    DayOfWeekMatchesSakamoto(d);
  }

  /**
   * The week number is the ISO 8601 week: the number of whole weeks since the
   * first Monday of the ISO year holding the row's date, plus one.
   */
  lemma TimeRowWeek(ts: int)
    ensures var r := TimeRowOf(ts);
            var z := DaysFromCivil(RowDate(r));
            r.week == (z - IsoYearStart(IsoYearOf(z))) / 7 + 1
  {
    var t := StartTime(ts);
    assert DaysFromCivil(DateOf(t)) == DayNumber(t);
    IsoWeekMatchesDefinition(DayNumber(t), IsoYearOf(DayNumber(t)));
  }

  /** `times` receives one row per staging event, in order: no DISTINCT, no WHERE. */
  function TimesInsert(events: seq<StagingEvent>): (rows: seq<TimeRow>)
    ensures |rows| == |events|
    ensures forall i :: 0 <= i < |events| ==> rows[i] == TimeRowOf(events[i].ts)
  {
    if events == [] then []
    else [TimeRowOf(events[0].ts)] + TimesInsert(events[1..])
  }

  /** The `start_time` column of some `times` rows. */
  function TimeKeys(rows: seq<TimeRow>): (ks: seq<Timestamp>)
    ensures |ks| == |rows| && forall i :: 0 <= i < |rows| ==> ks[i] == rows[i].start_time
  {
    if rows == [] then [] else [rows[0].start_time] + TimeKeys(rows[1..])
  }

  /** The `times` primary key holds exactly when no two events share a `start_time`. */
  lemma TimesKeyUnique(events: seq<StagingEvent>)
    ensures Distinct(TimeKeys(TimesInsert(events))) <==>
            forall i, j :: 0 <= i < j < |events| ==> StartTime(events[i].ts) != StartTime(events[j].ts)
  {
  }

  /**
   * Two events whose `ts` differ only below the millisecond-to-second cut get
   * identical `times` rows, so (by `TimesKeyUnique`) the output repeats a `start_time`.
   */
  lemma SameSecondDuplicatesTimesRow(events: seq<StagingEvent>, i: nat, j: nat)
    requires i < |events| && j < |events| && i != j
    requires 0 <= events[i].ts <= events[j].ts
    requires events[j].ts - events[i].ts < 1000 - events[i].ts % 1000
    ensures TimesInsert(events)[i] == TimesInsert(events)[j]
  {
    SameSecondSameStartTime(events[i].ts, events[j].ts);
  }

  // ---------------------------------------------------------------------
  // users, songs, artists
  // ---------------------------------------------------------------------

  /** `users` receives one row per staging event, renaming columns; nothing is deduplicated. */
  function UsersInsert(events: seq<StagingEvent>): (rows: seq<UserRow>)
    ensures |rows| == |events|
    ensures forall i :: 0 <= i < |events| ==>
              rows[i].user_id == events[i].userId && rows[i].first_name == events[i].firstName &&
              rows[i].last_name == events[i].lastName && rows[i].gender == events[i].gender &&
              rows[i].level == events[i].level
  {
    if events == [] then []
    else
      var e := events[0];
      [UserRow(e.userId, e.firstName, e.lastName, e.gender, e.level)] + UsersInsert(events[1..])
  }

  /** `songs` receives one row per staging song, same column names. */
  function SongsInsert(songs: seq<StagingSong>): (rows: seq<SongRow>)
    ensures |rows| == |songs|
    ensures forall i :: 0 <= i < |songs| ==>
              rows[i].song_id == songs[i].song_id && rows[i].title == songs[i].title &&
              rows[i].artist_id == songs[i].artist_id && rows[i].year == songs[i].year &&
              rows[i].duration == songs[i].duration
  {
    if songs == [] then []
    else
      var s := songs[0];
      [SongRow(s.song_id, s.title, s.artist_id, s.year, s.duration)] + SongsInsert(songs[1..])
  }

  /** `artists` receives one row per staging song (not per artist), renaming the artist_ columns. */
  function ArtistsInsert(songs: seq<StagingSong>): (rows: seq<ArtistRow>)
    ensures |rows| == |songs|
    ensures forall i :: 0 <= i < |songs| ==>
              rows[i].artist_id == songs[i].artist_id && rows[i].name == songs[i].artist_name &&
              rows[i].location == songs[i].artist_location && rows[i].latitude == songs[i].artist_latitude &&
              rows[i].longitude == songs[i].artist_longitude
  {
    if songs == [] then []
    else
      var s := songs[0];
      [ArtistRow(s.artist_id, s.artist_name, s.artist_location, s.artist_latitude, s.artist_longitude)]
        + ArtistsInsert(songs[1..])
  }

  function UserKeys(rows: seq<UserRow>): (ks: seq<string>)
    ensures |ks| == |rows| && forall i :: 0 <= i < |rows| ==> ks[i] == rows[i].user_id
  {
    if rows == [] then [] else [rows[0].user_id] + UserKeys(rows[1..])
  }

  function SongKeys(rows: seq<SongRow>): (ks: seq<string>)
    ensures |ks| == |rows| && forall i :: 0 <= i < |rows| ==> ks[i] == rows[i].song_id
  {
    if rows == [] then [] else [rows[0].song_id] + SongKeys(rows[1..])
  }

  function ArtistKeys(rows: seq<ArtistRow>): (ks: seq<string>)
    ensures |ks| == |rows| && forall i :: 0 <= i < |rows| ==> ks[i] == rows[i].artist_id
  {
    if rows == [] then [] else [rows[0].artist_id] + ArtistKeys(rows[1..])
  }

  /** The `users` primary key holds exactly when every staging event has a different `userId`. */
  lemma UsersKeyUnique(events: seq<StagingEvent>)
    ensures Distinct(UserKeys(UsersInsert(events))) <==>
            forall i, j :: 0 <= i < j < |events| ==> events[i].userId != events[j].userId
  {
  }

  /** The `songs` primary key holds exactly when every staging song has a different `song_id`. */
  lemma SongsKeyUnique(songs: seq<StagingSong>)
    ensures Distinct(SongKeys(SongsInsert(songs))) <==>
            forall i, j :: 0 <= i < j < |songs| ==> songs[i].song_id != songs[j].song_id
  {
  }

  /**
   * The `artists` primary key holds exactly when no artist has two staging
   * songs: an artist with k songs gets k rows.
   */
  lemma ArtistsKeyUnique(songs: seq<StagingSong>)
    ensures Distinct(ArtistKeys(ArtistsInsert(songs))) <==>
            forall i, j :: 0 <= i < j < |songs| ==> songs[i].artist_id != songs[j].artist_id
  {
  }

  /** Inserting from a concatenation of staging batches is inserting from each batch in turn. */
  lemma TimesInsertAppend(e1: seq<StagingEvent>, e2: seq<StagingEvent>)
    ensures TimesInsert(e1 + e2) == TimesInsert(e1) + TimesInsert(e2)
  {
  }

  lemma UsersInsertAppend(e1: seq<StagingEvent>, e2: seq<StagingEvent>)
    ensures UsersInsert(e1 + e2) == UsersInsert(e1) + UsersInsert(e2)
  {
  }

  lemma SongsInsertAppend(s1: seq<StagingSong>, s2: seq<StagingSong>)
    ensures SongsInsert(s1 + s2) == SongsInsert(s1) + SongsInsert(s2)
  {
  }

  lemma ArtistsInsertAppend(s1: seq<StagingSong>, s2: seq<StagingSong>)
    ensures ArtistsInsert(s1 + s2) == ArtistsInsert(s1) + ArtistsInsert(s2)
  {
  }

  // ---------------------------------------------------------------------
  // songplays
  // ---------------------------------------------------------------------

  /** SQL's three truth values. */
  datatype Truth = True | False | Unknown

  /**
   * `s` without its trailing blanks. Amazon Redshift treats trailing blanks in
   * VARCHAR values as insignificant when it compares them.
   */
  function RTrim(s: string): (t: string)
    ensures t <= s
    ensures forall k :: |t| <= k < |s| ==> s[k] == ' '
    ensures t == [] || t[|t| - 1] != ' '
  {
    if s == [] || s[|s| - 1] != ' ' then s else RTrim(s[..|s| - 1])
  }

  /** `n` blanks. */
  function Blanks(n: nat): (b: string)
    ensures |b| == n && forall k :: 0 <= k < n ==> b[k] == ' '
  {
    if n == 0 then [] else Blanks(n - 1) + [' ']
  }

  /** Padding a value with blanks does not change it as Redshift compares it. */
  lemma {:induction false} RTrimBlanks(s: string, n: nat)
    ensures RTrim(s + Blanks(n)) == RTrim(s)
  {
    if n > 0 {
      assert (s + Blanks(n))[..|s + Blanks(n)| - 1] == s + Blanks(n - 1);
      RTrimBlanks(s, n - 1);
    } else {
      assert s + Blanks(0) == s;
    }
  }

  /**
   * Two values compare equal exactly when one is the other padded with
   * blanks: trailing blanks are ignored, and nothing else is.
   */
  lemma RTrimEqual(a: string, b: string)
    ensures RTrim(a) == RTrim(b) <==>
            exists c: string, m: nat, n: nat :: a == c + Blanks(m) && b == c + Blanks(n)
  {
    if RTrim(a) == RTrim(b) {
      var c := RTrim(a);
      assert a == c + Blanks(|a| - |c|);
      assert b == c + Blanks(|b| - |c|);
    }
    if exists c: string, m: nat, n: nat :: a == c + Blanks(m) && b == c + Blanks(n) {
      var c: string, m: nat, n: nat :| a == c + Blanks(m) && b == c + Blanks(n);
      RTrimBlanks(c, m);
      RTrimBlanks(c, n);
    }
  }

  /** SQL `=` on nullable VARCHAR values: comparing with NULL is unknown, not false. */
  function SqlEquals(a: Option<string>, b: Option<string>): (r: Truth)
    ensures r == Unknown <==> a.None? || b.None?
    ensures r == True <==> a.Some? && b.Some? && RTrim(a.value) == RTrim(b.value)
  {
    if a.None? || b.None? then Unknown
    else if RTrim(a.value) == RTrim(b.value) then True
    else False
  }

  /** The join condition `e.song = s.title`; an inner join keeps a pair only when it is true. */
  predicate JoinMatches(e: StagingEvent, s: StagingSong)
  {
    SqlEquals(e.song, Some(s.title)) == True
  }

  /**
   * The join keeps a pair exactly when the event's song and the song's title
   * are the same string up to trailing blanks; a NULL song never matches.
   */
  lemma JoinMatchesTitle(e: StagingEvent, s: StagingSong)
    ensures JoinMatches(e, s) <==>
            e.song.Some? && exists c: string, m: nat, n: nat :: e.song.value == c + Blanks(m) && s.title == c + Blanks(n)
    ensures e.song.None? ==> !JoinMatches(e, s)
  {
    if e.song.Some? {
      RTrimEqual(e.song.value, s.title);
    }
  }

  /** The `songplays` row built from one matching pair. */
  function SongplayOf(e: StagingEvent, s: StagingSong): SongplayRow
  {
    SongplayRow(StartTime(e.ts), e.userId, s.song_id, s.artist_id, e.sessionId, e.location, e.userAgent)
  }

  /** The rows one event contributes: one per staging song it matches, in song order. */
  function MatchesOf(e: StagingEvent, songs: seq<StagingSong>): (rows: seq<SongplayRow>)
    ensures |rows| <= |songs|
  {
    if songs == [] then []
    else (if JoinMatches(e, songs[0]) then [SongplayOf(e, songs[0])] else []) + MatchesOf(e, songs[1..])
  }

  /** `songplays` receives, for each staging event in turn, the rows of its matches. */
  function SongplaysInsert(events: seq<StagingEvent>, songs: seq<StagingSong>): (rows: seq<SongplayRow>)
    ensures events == [] || songs == [] ==> rows == []
  {
    if events == [] then []
    else MatchesOf(events[0], songs) + SongplaysInsert(events[1..], songs)
  }

  /** The `title` column of the staging songs, trailing blanks dropped. */
  function TrimmedTitles(songs: seq<StagingSong>): (ts: seq<string>)
    ensures |ts| == |songs| && forall j :: 0 <= j < |songs| ==> ts[j] == RTrim(songs[j].title)
  {
    if songs == [] then [] else [RTrim(songs[0].title)] + TrimmedTitles(songs[1..])
  }

  /** A row comes from one event exactly when it is built from that event and a song it names. */
  lemma {:induction false} MatchesOfMembership(e: StagingEvent, songs: seq<StagingSong>, r: SongplayRow)
    ensures r in MatchesOf(e, songs) <==>
            exists j :: 0 <= j < |songs| && JoinMatches(e, songs[j]) && r == SongplayOf(e, songs[j])
  {
    if songs != [] {
      MatchesOfMembership(e, songs[1..], r);
      if r in MatchesOf(e, songs[1..]) {
        var j :| 0 <= j < |songs[1..]| && JoinMatches(e, songs[1..][j]) && r == SongplayOf(e, songs[1..][j]);
        assert songs[1..][j] == songs[j + 1];
      }
      if exists j :: 0 <= j < |songs| && JoinMatches(e, songs[j]) && r == SongplayOf(e, songs[j]) {
        var j :| 0 <= j < |songs| && JoinMatches(e, songs[j]) && r == SongplayOf(e, songs[j]);
        if j > 0 {
          assert songs[1..][j - 1] == songs[j];
        }
      }
    }
  }

  /**
   * The fact rows are exactly the rows built from the (event, song) pairs
   * whose `song` names the `title`.
   */
  lemma {:induction false} SongplaysMembership(events: seq<StagingEvent>, songs: seq<StagingSong>, r: SongplayRow)
    ensures r in SongplaysInsert(events, songs) <==>
            exists i, j :: 0 <= i < |events| && 0 <= j < |songs| &&
              JoinMatches(events[i], songs[j]) && r == SongplayOf(events[i], songs[j])
  {
    if events != [] {
      MatchesOfMembership(events[0], songs, r);
      SongplaysMembership(events[1..], songs, r);
      if r in SongplaysInsert(events[1..], songs) {
        var i, j :| 0 <= i < |events[1..]| && 0 <= j < |songs| &&
          JoinMatches(events[1..][i], songs[j]) && r == SongplayOf(events[1..][i], songs[j]);
        assert events[1..][i] == events[i + 1];
      }
      if r in MatchesOf(events[0], songs) {
        var j :| 0 <= j < |songs| && JoinMatches(events[0], songs[j]) && r == SongplayOf(events[0], songs[j]);
        assert 0 <= 0 < |events| && JoinMatches(events[0], songs[j]) && r == SongplayOf(events[0], songs[j]);
      }
      if exists i, j :: 0 <= i < |events| && 0 <= j < |songs| &&
           JoinMatches(events[i], songs[j]) && r == SongplayOf(events[i], songs[j]) {
        var i, j :| 0 <= i < |events| && 0 <= j < |songs| &&
          JoinMatches(events[i], songs[j]) && r == SongplayOf(events[i], songs[j]);
        if i > 0 {
          assert events[1..][i - 1] == events[i];
        }
      }
    }
  }

  /**
   * Fan-out: an event contributes one row per staging song whose title it
   * names (so k rows when k titles agree with it up to trailing blanks), and
   * none when its song is NULL.
   */
  lemma {:induction false} FanOut(e: StagingEvent, songs: seq<StagingSong>)
    ensures |MatchesOf(e, songs)| == if e.song.None? then 0 else multiset(TrimmedTitles(songs))[RTrim(e.song.value)]
  {
    if songs != [] {
      FanOut(e, songs[1..]);
      assert TrimmedTitles(songs) == [RTrim(songs[0].title)] + TrimmedTitles(songs[1..]);
    }
  }

  /** An event whose `song` is NULL contributes no fact row, whatever the songs. */
  lemma NullSongNoRows(e: StagingEvent, songs: seq<StagingSong>)
    requires e.song.None?
    ensures MatchesOf(e, songs) == []
  {
    FanOut(e, songs);
  }

  /** Loading the events in two batches gives the rows of each batch, in order. */
  lemma {:induction false} SongplaysInsertAppend(e1: seq<StagingEvent>, e2: seq<StagingEvent>, songs: seq<StagingSong>)
    ensures SongplaysInsert(e1 + e2, songs) == SongplaysInsert(e1, songs) + SongplaysInsert(e2, songs)
  {
    if e1 != [] {
      assert (e1 + e2)[1..] == e1[1..] + e2;
      SongplaysInsertAppend(e1[1..], e2, songs);
    } else {
      assert e1 + e2 == e2;
    }
  }

  /** Two event lists that differ at most in their `page` column. */
  predicate SameExceptPage(events1: seq<StagingEvent>, events2: seq<StagingEvent>)
  {
    |events1| == |events2| &&
    forall i :: 0 <= i < |events1| ==> events2[i] == events1[i].(page := events2[i].page)
  }

  /** The join never reads `page`: changing it changes no fact row. */
  lemma {:induction false} PageNotConsulted(events1: seq<StagingEvent>, events2: seq<StagingEvent>, songs: seq<StagingSong>)
    requires SameExceptPage(events1, events2)
    ensures SongplaysInsert(events1, songs) == SongplaysInsert(events2, songs)
  {
    if events1 != [] {
      assert SameExceptPage(events1[1..], events2[1..]) by {
        forall i | 0 <= i < |events1[1..]|
          ensures events2[1..][i] == events1[1..][i].(page := events2[1..][i].page)
        {
          assert events1[1..][i] == events1[i + 1] && events2[1..][i] == events2[i + 1];
        }
      }
      PageNotConsulted(events1[1..], events2[1..], songs);
      SamePairRows(events1[0], events2[0], songs);
    }
  }

  lemma {:induction false} SamePairRows(e1: StagingEvent, e2: StagingEvent, songs: seq<StagingSong>)
    requires e2 == e1.(page := e2.page)
    ensures MatchesOf(e1, songs) == MatchesOf(e2, songs)
  {
    if songs != [] {
      SamePairRows(e1, e2, songs[1..]);
    }
  }

  /**
   * Run over the same staging data, every fact row's foreign keys appear in
   * the dimension rows: `start_time` in `times`, `user_id` in `users`,
   * `song_id` in `songs` and `artist_id` in `artists`.
   */
  lemma SongplaysForeignKeys(events: seq<StagingEvent>, songs: seq<StagingSong>, r: SongplayRow)
    requires r in SongplaysInsert(events, songs)
    ensures r.start_time in TimeKeys(TimesInsert(events))
    ensures r.user_id in UserKeys(UsersInsert(events))
    ensures r.song_id in SongKeys(SongsInsert(songs))
    ensures r.artist_id in ArtistKeys(ArtistsInsert(songs))
  {
    SongplaysMembership(events, songs, r);
    var i, j :| 0 <= i < |events| && 0 <= j < |songs| &&
      JoinMatches(events[i], songs[j]) && r == SongplayOf(events[i], songs[j]);
    assert TimeKeys(TimesInsert(events))[i] == r.start_time;
    assert UserKeys(UsersInsert(events))[i] == r.user_id;
    assert SongKeys(SongsInsert(songs))[j] == r.song_id;
    assert ArtistKeys(ArtistsInsert(songs))[j] == r.artist_id;
  }

  /**
   * The fact row and the `times` row of an event carry the same `start_time`:
   * both transforms convert `ts` the same way.
   */
  lemma SameStartTimeInBothTransforms(events: seq<StagingEvent>, i: nat, s: StagingSong)
    requires i < |events|
    ensures SongplayOf(events[i], s).start_time == TimesInsert(events)[i].start_time
  {
  }

  // ---------------------------------------------------------------------
  // Worked examples
  // ---------------------------------------------------------------------

  /** The event at ts = 1541990258796 ms: 2018-11-12 02:37:38, a Monday in ISO week 46. */
  lemma ExampleTimeRow()
    ensures TimeRowOf(1541990258796) == TimeRow(1541990258, 2, 12, 46, 11, 2018, true)
  {
    assert StartTime(1541990258796) == 1541990258;
    ExampleDateAndHour();
    ExampleWeek();
  }

  /** One event naming a title two staging songs share yields two fact rows, one per song. */
  lemma ExampleFanOut(e: StagingEvent, s1: StagingSong, s2: StagingSong)
    requires e.song == Some(s1.title) && s2.title == s1.title
    requires s1.song_id != s2.song_id
    ensures SongplaysInsert([e], [s1, s2]) == [SongplayOf(e, s1), SongplayOf(e, s2)]
    ensures SongplayOf(e, s1) != SongplayOf(e, s2)
  {
    assert [s1, s2][1..] == [s2];
    assert MatchesOf(e, [s2]) == [SongplayOf(e, s2)];
    assert MatchesOf(e, [s1, s2]) == [SongplayOf(e, s1), SongplayOf(e, s2)];
  }

  /** An event whose song carries a trailing blank still joins the song titled without it. */
  lemma ExamplePaddedSong(e: StagingEvent, s: StagingSong)
    requires e.song == Some("Yellow ") && s.title == "Yellow"
    ensures SongplaysInsert([e], [s]) == [SongplayOf(e, s)]
  {
    assert RTrim("Yellow ") == "Yellow" by {
      assert "Yellow "[..6] == "Yellow";
    }
    assert MatchesOf(e, [s]) == [SongplayOf(e, s)];
  }

  /** Leading blanks are significant: ` Yellow` does not join `Yellow`. */
  lemma ExampleLeadingBlank(e: StagingEvent, s: StagingSong)
    requires e.song == Some(" Yellow") && s.title == "Yellow"
    ensures SongplaysInsert([e], [s]) == []
  {
    assert RTrim(" Yellow") != RTrim("Yellow") by {
      assert |RTrim(" Yellow")| == 7;
      assert |RTrim("Yellow")| == 6;
    }
    assert MatchesOf(e, [s]) == [];
  }
}
