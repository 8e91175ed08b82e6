/**
 * The warehouse schema: the seven tables, their columns with types and
 * constraints, and the foreign keys of the fact table.
 */
module Schema {
  import opened Wrappers

  /** The two staging tables, the fact table and the four dimension tables. */
  datatype Table = StagingEvents | StagingSongs | Songplays | Users | Songs | Artists | Times

  /** The table's name in the warehouse. */
  function Name(t: Table): string
  {
    match t
    case StagingEvents => "staging_events"
    case StagingSongs => "staging_songs"
    case Songplays => "songplays"
    case Users => "users"
    case Songs => "songs"
    case Artists => "artists"
    case Times => "times"
  }

  /** Every table of the schema. */
  const AllTables: set<Table> := {StagingEvents, StagingSongs, Songplays, Users, Songs, Artists, Times}

  /** `AllTables` lists every table. */
  lemma AllTablesComplete(t: Table)
    ensures t in AllTables
  {
  }

  /** No two tables share a name. */
  lemma NamesDistinct(t: Table, u: Table)
    ensures Name(t) == Name(u) <==> t == u
  {
  }

  /** Column types; the numbers are the declared character lengths. */
  datatype SqlType = Varchar(length: nat) | Char(length: nat) | Integer | Smallint | Bigint | Real | Timestamp | Boolean

  /**
   * A column declaration. `notNull` holds for a column declared `not null`
   * and for a primary-key column.
   */
  datatype Column = Column(name: string, sqlType: SqlType, notNull: bool)

  /** The columns of each CREATE TABLE, in declaration order. */
  function Columns(t: Table): seq<Column>
  {
    match t
    case StagingEvents => [
      Column("artist", Varchar(250), false),
      Column("auth", Varchar(20), true),
      Column("firstName", Varchar(15), false),
      Column("gender", Char(1), false),
      Column("itemInSession", Integer, true),
      Column("lastName", Varchar(15), false),
      Column("length", Real, false),
      Column("level", Varchar(4), true),
      Column("location", Varchar(150), false),
      Column("method", Varchar(4), true),
      Column("page", Varchar(50), true),
      Column("registration", Real, false),
      Column("sessionId", Integer, true),
      Column("song", Varchar(400), false),
      Column("status", Smallint, true),
      Column("ts", Bigint, true),
      Column("userAgent", Varchar(400), false),
      Column("userId", Varchar(18), true)]
    case StagingSongs => [
      Column("artist_id", Varchar(18), true),
      Column("artist_location", Varchar(300), false),
      Column("artist_latitude", Real, false),
      Column("artist_longitude", Real, false),
      Column("artist_name", Varchar(250), true),
      Column("duration", Real, true),
      Column("num_songs", Integer, true),
      Column("song_id", Varchar(18), true),
      Column("title", Varchar(400), true),
      Column("year", Smallint, true)]
    case Songplays => [
      Column("songplay_id", Integer, true),
      Column("start_time", Timestamp, true),
      Column("user_id", Varchar(18), true),
      Column("song_id", Varchar(18), true),
      Column("artist_id", Varchar(18), true),
      Column("session_id", Integer, true),
      Column("location", Varchar(150), false),
      Column("user_agent", Varchar(400), false)]
    case Users => [
      Column("user_id", Varchar(18), true),
      Column("first_name", Varchar(15), false),
      Column("last_name", Varchar(15), false),
      Column("gender", Char(1), false),
      Column("level", Varchar(4), true)]
    case Songs => [
      Column("song_id", Varchar(18), true),
      Column("title", Varchar(400), true),
      Column("artist_id", Varchar(18), true),
      Column("year", Smallint, true),
      Column("duration", Real, true)]
    case Artists => [
      Column("artist_id", Varchar(18), true),
      Column("name", Varchar(250), true),
      Column("location", Varchar(300), false),
      Column("latitude", Real, false),
      Column("longitude", Real, false)]
    case Times => [
      Column("start_time", Timestamp, true),
      Column("hour", Smallint, true),
      Column("day", Smallint, true),
      Column("week", Smallint, true),
      Column("month", Smallint, true),
      Column("year", Smallint, true),
      Column("weekday", Boolean, true)]
  }

  /** The name of the primary-key column, if the table declares one. */
  function PrimaryKey(t: Table): Option<string>
  {
    match t
    case StagingEvents => None
    case StagingSongs => None
    case Songplays => Some("songplay_id")
    case Users => Some("user_id")
    case Songs => Some("song_id")
    case Artists => Some("artist_id")
    case Times => Some("start_time")
  }

  /** Each declared primary key is the table's first column, which is therefore never NULL. */
  lemma PrimaryKeyDeclared(t: Table)
    requires PrimaryKey(t).Some?
    ensures |Columns(t)| > 0 && Columns(t)[0].name == PrimaryKey(t).value && Columns(t)[0].notNull
  {
  }

  /** A `references <table> (<targetColumn>)` constraint on `column`. */
  datatype ForeignKey = ForeignKey(column: string, table: Table, targetColumn: string)

  /** The foreign keys each table declares. */
  function ForeignKeys(t: Table): seq<ForeignKey>
  {
    if t == Songplays then
      [ForeignKey("start_time", Times, "start_time"),
       ForeignKey("user_id", Users, "user_id"),
       ForeignKey("song_id", Songs, "song_id"),
       ForeignKey("artist_id", Artists, "artist_id")]
    else []
  }

  /** The tables that `t` references. */
  function References(t: Table): set<Table>
  {
    set fk | fk in ForeignKeys(t) :: fk.table
  }

  /** Only the fact table has foreign keys, and it references all four dimensions. */
  lemma ReferencesOfTables(t: Table)
    ensures References(t) == if t == Songplays then {Times, Users, Songs, Artists} else {}
  {
    if t == Songplays {
      var fks := ForeignKeys(Songplays);
      assert fks[0].table == Times && fks[1].table == Users;
      assert fks[2].table == Songs && fks[3].table == Artists;
    }
  }

  /** No table references itself, so creation order can respect every reference. */
  lemma NoSelfReference(t: Table)
    ensures t !in References(t)
  {
    ReferencesOfTables(t);
  }

  /**
   * Every foreign key points at the primary key of the referenced table, from
   * a column of the same name.
   */
  lemma ForeignKeysTargetPrimaryKeys(t: Table, fk: ForeignKey)
    requires fk in ForeignKeys(t)
    ensures PrimaryKey(fk.table) == Some(fk.targetColumn) && fk.column == fk.targetColumn
  {
  }

  /** The referencing and referenced columns have the same declared type and are `not null`. */
  lemma ForeignKeyColumnsAgree(t: Table, fk: ForeignKey)
    requires fk in ForeignKeys(t)
    ensures exists i, j {:trigger Columns(t)[i], Columns(fk.table)[j]} ::
              0 <= i < |Columns(t)| && 0 <= j < |Columns(fk.table)| &&
              Columns(t)[i].name == fk.column && Columns(fk.table)[j].name == fk.targetColumn &&
              Columns(t)[i].sqlType == Columns(fk.table)[j].sqlType &&
              Columns(t)[i].notNull && Columns(fk.table)[j].notNull
  {
    var cs := Columns(Songplays);
    if fk.table == Times {
      assert cs[1].name == fk.column && Columns(Times)[0].name == fk.targetColumn;
    } else if fk.table == Users {
      assert cs[2].name == fk.column && Columns(Users)[0].name == fk.targetColumn;
    } else if fk.table == Songs {
      assert cs[3].name == fk.column && Columns(Songs)[0].name == fk.targetColumn;
    } else {
      assert cs[4].name == fk.column && Columns(Artists)[0].name == fk.targetColumn;
    }
  }
}
