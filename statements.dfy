/**
 * The four statement lists a driver runs in order (drop, create, copy,
 * insert), and what running them does to the warehouse. A statement either
 * fails with the error the warehouse reports or yields the next warehouse
 * state; a list stops at its first failure.
 */
module Statements {
  import opened Wrappers
  import opened Rows
  import opened Schema
  import opened Transforms

  // ---------------------------------------------------------------------
  // Statements
  // ---------------------------------------------------------------------

  /** The two bulk loads from object storage. */
  datatype Load = EventLog | SongMetadata

  /** How COPY maps JSON objects to columns. */
  datatype JsonFormat = JsonPaths(path: string) | AutoJson

  /** The staging table each load fills. */
  function Target(load: Load): Table
  {
    match load
    case EventLog => StagingEvents
    case SongMetadata => StagingSongs
  }

  /** The object-storage prefix each load reads. */
  function SourcePath(load: Load): string
  {
    match load
    case EventLog => "s3://udacity-dend/log_data"
    case SongMetadata => "s3://udacity-dend/song_data"
  }

  /** The event log needs a path-mapping file; song metadata matches the columns by name. */
  function Format(load: Load): JsonFormat
  {
    match load
    case EventLog => JsonPaths("s3://udacity-dend/log_json_path.json")
    case SongMetadata => AutoJson
  }

  /** The five INSERT ... SELECT statements. */
  datatype Transform = SongplayTableInsert | UserTableInsert | SongTableInsert | ArtistTableInsert | TimeTableInsert

  /** The table each transform inserts into. */
  function Fills(tr: Transform): Table
  {
    match tr
    case SongplayTableInsert => Songplays
    case UserTableInsert => Users
    case SongTableInsert => Songs
    case ArtistTableInsert => Artists
    case TimeTableInsert => Times
  }

  /** The staging tables each transform selects from. */
  function Reads(tr: Transform): set<Table>
  {
    match tr
    case SongplayTableInsert => {StagingEvents, StagingSongs}
    case UserTableInsert => {StagingEvents}
    case SongTableInsert => {StagingSongs}
    case ArtistTableInsert => {StagingSongs}
    case TimeTableInsert => {StagingEvents}
  }

  /**
   * A statement: `DROP TABLE IF EXISTS` (with or without `cascade`),
   * `CREATE TABLE`, a COPY authenticated by an IAM role ARN, or an INSERT ... SELECT.
   */
  datatype Statement =
    | DropTable(table: Table, cascade: bool)
    | CreateTable(table: Table)
    | Copy(load: Load, iamRole: string)
    | InsertSelect(transform: Transform)

  /** The text of a drop statement. */
  function DropText(t: Table, cascade: bool): string
  {
    "DROP TABLE IF EXISTS " + Name(t) + (if cascade then " cascade" else "")
  }

  /** The drop list: staging tables, then the fact table (with cascade), then the dimensions. */
  const DropTableQueries: seq<Statement> := [
    DropTable(StagingEvents, false), DropTable(StagingSongs, false), DropTable(Songplays, true),
    DropTable(Users, false), DropTable(Songs, false), DropTable(Artists, false), DropTable(Times, false)]

  /** The create list: staging tables, the four dimensions, and the fact table last. */
  const CreateTableQueries: seq<Statement> := [
    CreateTable(StagingEvents), CreateTable(StagingSongs), CreateTable(Users), CreateTable(Songs),
    CreateTable(Artists), CreateTable(Times), CreateTable(Songplays)]

  /** The copy list, with the configured role ARN substituted into both statements. */
  function CopyTableQueries(iamRole: string): (ss: seq<Statement>)
    ensures |ss| == 2 && forall i :: 0 <= i < 2 ==> ss[i].Copy? && ss[i].iamRole == iamRole
  {
    [Copy(EventLog, iamRole), Copy(SongMetadata, iamRole)]
  }

  /** The insert list: the fact table first, then users, songs, artists and times. */
  const InsertTableQueries: seq<Statement> := [
    InsertSelect(SongplayTableInsert), InsertSelect(UserTableInsert), InsertSelect(SongTableInsert),
    InsertSelect(ArtistTableInsert), InsertSelect(TimeTableInsert)]

  /** The whole run: drop, create, copy, insert. */
  function Pipeline(iamRole: string): seq<Statement>
  {
    DropTableQueries + CreateTableQueries + CopyTableQueries(iamRole) + InsertTableQueries
  }

  // ---------------------------------------------------------------------
  // Warehouse state
  // ---------------------------------------------------------------------

  /** The tables that exist and the rows of every table. */
  datatype Database = Database(
    tables: set<Table>,
    stagingEvents: seq<StagingEvent>,
    stagingSongs: seq<StagingSong>,
    songplays: seq<SongplayRow>,
    users: seq<UserRow>,
    songs: seq<SongRow>,
    artists: seq<ArtistRow>,
    times: seq<TimeRow>)

  /** What the two object-storage prefixes hold, as rows the loader has parsed. */
  datatype ObjectStore = ObjectStore(eventLog: seq<StagingEvent>, songMetadata: seq<StagingSong>)

  /** A warehouse with no tables. */
  const NoTables: Database := Database({}, [], [], [], [], [], [], [])

  /** Table `t` holds no rows. */
  predicate IsEmpty(db: Database, t: Table)
  {
    match t
    case StagingEvents => db.stagingEvents == []
    case StagingSongs => db.stagingSongs == []
    case Songplays => db.songplays == []
    case Users => db.users == []
    case Songs => db.songs == []
    case Artists => db.artists == []
    case Times => db.times == []
  }

  /** Table `t` holds the same rows in both states. */
  predicate SameRows(d1: Database, d2: Database, t: Table)
  {
    match t
    case StagingEvents => d1.stagingEvents == d2.stagingEvents
    case StagingSongs => d1.stagingSongs == d2.stagingSongs
    case Songplays => d1.songplays == d2.songplays
    case Users => d1.users == d2.users
    case Songs => d1.songs == d2.songs
    case Artists => d1.artists == d2.artists
    case Times => d1.times == d2.times
  }

  /** Only existing tables hold rows. */
  predicate Consistent(db: Database)
  {
    forall t :: t !in db.tables ==> IsEmpty(db, t)
  }

  /** `db` with table `t` emptied. */
  function Clear(db: Database, t: Table): (r: Database)
    ensures r.tables == db.tables && IsEmpty(r, t)
    ensures forall u :: u != t ==> SameRows(db, r, u)
  {
    match t
    case StagingEvents => db.(stagingEvents := [])
    case StagingSongs => db.(stagingSongs := [])
    case Songplays => db.(songplays := [])
    case Users => db.(users := [])
    case Songs => db.(songs := [])
    case Artists => db.(artists := [])
    case Times => db.(times := [])
  }

  /** Two states with the same tables and the same rows in every table are equal. */
  lemma Extensionality(d1: Database, d2: Database)
    requires d1.tables == d2.tables && forall t :: SameRows(d1, d2, t)
    ensures d1 == d2
  {
    assert SameRows(d1, d2, StagingEvents) && SameRows(d1, d2, StagingSongs) && SameRows(d1, d2, Songplays);
    assert SameRows(d1, d2, Users) && SameRows(d1, d2, Songs) && SameRows(d1, d2, Artists) && SameRows(d1, d2, Times);
  }

  // ---------------------------------------------------------------------
  // Running statements
  // ---------------------------------------------------------------------

  /** The errors the warehouse reports for these statements. */
  datatype Failure =
    | DependentObjectsExist(table: Table)
    | AlreadyExists(table: Table)
    | MissingReference(table: Table)
    | NoSuchTable(table: Table)

  /** Some other existing table declares a foreign key into `t`. */
  predicate HasDependents(t: Table, tables: set<Table>)
  {
    exists u :: u in tables && u != t && t in References(u)
  }

  /** The rows an INSERT ... SELECT appends to its table, computed from the staging rows. */
  function Insert(db: Database, tr: Transform): Database
  {
    match tr
    case SongplayTableInsert => db.(songplays := db.songplays + SongplaysInsert(db.stagingEvents, db.stagingSongs))
    case UserTableInsert => db.(users := db.users + UsersInsert(db.stagingEvents))
    case SongTableInsert => db.(songs := db.songs + SongsInsert(db.stagingSongs))
    case ArtistTableInsert => db.(artists := db.artists + ArtistsInsert(db.stagingSongs))
    case TimeTableInsert => db.(times := db.times + TimesInsert(db.stagingEvents))
  }

  /**
   * Runs one statement. A drop of a missing table does nothing; a drop of a
   * table another table references fails unless it cascades. A create fails
   * when the table exists or a table it references does not. A copy appends
   * the loaded rows; an insert appends the transform's rows; both need their
   * tables to exist.
   */
  function Exec(s: Statement, db: Database, store: ObjectStore): (r: Result<Database, Failure>)
    ensures s.DropTable? ==>
              (r.Ok? <==> s.cascade || s.table !in db.tables || !HasDependents(s.table, db.tables))
    ensures s.CreateTable? ==> (r.Ok? <==> s.table !in db.tables && References(s.table) <= db.tables)
    ensures (s.Copy? || s.InsertSelect?) && r.Ok? ==> r.value.tables == db.tables
  {
    match s
    case DropTable(t, cascade) =>
      if t !in db.tables then Ok(db)
      else if !cascade && HasDependents(t, db.tables) then Err(DependentObjectsExist(t))
      else Ok(Clear(db, t).(tables := db.tables - {t}))
    case CreateTable(t) =>
      if t in db.tables then Err(AlreadyExists(t))
      else if !(References(t) <= db.tables) then Err(MissingReference(t))
      else Ok(Clear(db, t).(tables := db.tables + {t}))
    case Copy(load, _) =>
      if Target(load) !in db.tables then Err(NoSuchTable(Target(load)))
      else if load == EventLog then Ok(db.(stagingEvents := db.stagingEvents + store.eventLog))
      else Ok(db.(stagingSongs := db.stagingSongs + store.songMetadata))
    case InsertSelect(tr) =>
      if Fills(tr) !in db.tables then Err(NoSuchTable(Fills(tr)))
      else if StagingEvents in Reads(tr) && StagingEvents !in db.tables then Err(NoSuchTable(StagingEvents))
      else if StagingSongs in Reads(tr) && StagingSongs !in db.tables then Err(NoSuchTable(StagingSongs))
      else Ok(Insert(db, tr))
  }

  /** A table that did not exist before a statement and does not exist after it still holds no rows. */
  lemma ExecKeepsConsistent(s: Statement, db: Database, store: ObjectStore)
    requires Consistent(db) && Exec(s, db, store).Ok?
    ensures Consistent(Exec(s, db, store).value)
  {
    var d := Exec(s, db, store).value;
    match s
    case DropTable(u, cascade) =>
      DropEffect(u, cascade, db, store);
      ConsistentAfter(db, d, u);
    case CreateTable(u) =>
      CreateEffect(u, db, store);
      ConsistentAfter(db, d, u);
    case Copy(load, _) =>
      CopyEffect(load, s, db, store);
      ConsistentAfter(db, d, Target(load));
    case InsertSelect(tr) =>
      InsertEffect(tr, s, db, store);
      ConsistentAfter(db, d, Fills(tr));
  }

  /**
   * A state stays consistent when only table `u` changes its rows, no other
   * table disappears, and `u` is empty if it no longer exists.
   */
  lemma ConsistentAfter(db: Database, d: Database, u: Table)
    requires Consistent(db)
    requires db.tables - {u} <= d.tables && (u !in d.tables ==> IsEmpty(d, u))
    requires forall t :: t != u ==> SameRows(db, d, t)
    ensures Consistent(d)
  {
    forall t | t !in d.tables
      ensures IsEmpty(d, t)
    {
      if t != u {
        assert IsEmpty(db, t) && SameRows(db, d, t);
      }
    }
  }

  /** Runs `ss[i..]` in order, stopping at the first failure. */
  function RunFrom(ss: seq<Statement>, i: nat, db: Database, store: ObjectStore): Result<Database, Failure>
    requires i <= |ss|
    decreases |ss| - i
  {
    if i == |ss| then Ok(db)
    else
      match Exec(ss[i], db, store)
      case Err(f) => Err(f)
      case Ok(d) => RunFrom(ss, i + 1, d, store)
  }

  /** Runs a list of statements in order, stopping at the first failure. */
  function Run(ss: seq<Statement>, db: Database, store: ObjectStore): Result<Database, Failure>
  {
    RunFrom(ss, 0, db, store)
  }

  /** A run that succeeds from a consistent state ends in a consistent state. */
  lemma {:induction false} RunKeepsConsistent(ss: seq<Statement>, i: nat, db: Database, store: ObjectStore)
    requires i <= |ss| && Consistent(db) && RunFrom(ss, i, db, store).Ok?
    ensures Consistent(RunFrom(ss, i, db, store).value)
    decreases |ss| - i
  {
    if i < |ss| {
      ExecKeepsConsistent(ss[i], db, store);
      RunKeepsConsistent(ss, i + 1, Exec(ss[i], db, store).value, store);
    }
  }

  /** One successful step of a run. */
  lemma RunFromStep(ss: seq<Statement>, i: nat, db: Database, store: ObjectStore, d: Database)
    requires i < |ss| && Exec(ss[i], db, store) == Ok(d)
    ensures RunFrom(ss, i, db, store) == RunFrom(ss, i + 1, d, store)
  {
  }

  lemma {:induction false} RunFromShift(ss1: seq<Statement>, ss2: seq<Statement>, k: nat, db: Database, store: ObjectStore)
    requires k <= |ss2|
    ensures RunFrom(ss1 + ss2, |ss1| + k, db, store) == RunFrom(ss2, k, db, store)
    decreases |ss2| - k
  {
    if k < |ss2| {
      assert (ss1 + ss2)[|ss1| + k] == ss2[k];
      match Exec(ss2[k], db, store)
      case Err(_) =>
      case Ok(d) => RunFromShift(ss1, ss2, k + 1, d, store);
    }
  }

  lemma {:induction false} RunFromAppend(ss1: seq<Statement>, ss2: seq<Statement>, i: nat, db: Database, store: ObjectStore)
    requires i <= |ss1|
    ensures RunFrom(ss1 + ss2, i, db, store) ==
            match RunFrom(ss1, i, db, store)
            case Err(f) => Err(f)
            case Ok(d) => Run(ss2, d, store)
    decreases |ss1| - i
  {
    if i == |ss1| {
      RunFromShift(ss1, ss2, 0, db, store);
    } else {
      assert (ss1 + ss2)[i] == ss1[i];
      match Exec(ss1[i], db, store)
      case Err(_) =>
      case Ok(d) => RunFromAppend(ss1, ss2, i + 1, d, store);
    }
  }

  /** Running two lists in a row is running their concatenation. */
  lemma RunAppend(ss1: seq<Statement>, ss2: seq<Statement>, db: Database, store: ObjectStore)
    ensures Run(ss1 + ss2, db, store) ==
            match Run(ss1, db, store)
            case Err(f) => Err(f)
            case Ok(d) => Run(ss2, d, store)
  {
    RunFromAppend(ss1, ss2, 0, db, store);
  }

  // ---------------------------------------------------------------------
  // Lists of creates and drops
  // ---------------------------------------------------------------------

  /** The tables the drops and creates among `ss[lo..hi]` name. */
  function TablesIn(ss: seq<Statement>, lo: nat, hi: nat): set<Table>
    requires lo <= hi <= |ss|
  {
    set k | lo <= k < hi && (ss[k].DropTable? || ss[k].CreateTable?) :: ss[k].table
  }

  lemma TablesInStep(ss: seq<Statement>, lo: nat, hi: nat)
    requires lo < hi <= |ss| && (ss[lo].DropTable? || ss[lo].CreateTable?)
    ensures TablesIn(ss, lo, hi) == {ss[lo].table} + TablesIn(ss, lo + 1, hi)
  {
  }

  /**
   * From index `i` on, each create names a table that does not exist yet, and
   * every table it references exists already or was created earlier.
   */
  predicate CreatesInDependencyOrder(existing: set<Table>, ss: seq<Statement>, i: nat)
    requires i <= |ss|
    decreases |ss| - i
  {
    i == |ss| ||
    (ss[i].CreateTable? && ss[i].table !in existing && References(ss[i].table) <= existing &&
     CreatesInDependencyOrder(existing + {ss[i].table}, ss, i + 1))
  }

  /**
   * From index `i` on, each drop is of a missing table, or cascades, or is of
   * a table no remaining table references.
   */
  predicate DropsInDependencyOrder(existing: set<Table>, ss: seq<Statement>, i: nat)
    requires i <= |ss|
    decreases |ss| - i
  {
    i == |ss| ||
    (ss[i].DropTable? &&
     (ss[i].cascade || ss[i].table !in existing || !HasDependents(ss[i].table, existing)) &&
     DropsInDependencyOrder(existing - {ss[i].table}, ss, i + 1))
  }

  /**
   * A list of creates succeeds exactly when it creates in dependency order;
   * then the named tables exist and are empty, and no other table changes.
   */
  lemma {:induction false} CreateSequence(ss: seq<Statement>, i: nat, db: Database, store: ObjectStore)
    requires i <= |ss| && forall k :: i <= k < |ss| ==> ss[k].CreateTable?
    ensures RunFrom(ss, i, db, store).Ok? <==> CreatesInDependencyOrder(db.tables, ss, i)
    ensures RunFrom(ss, i, db, store).Ok? ==>
              var d := RunFrom(ss, i, db, store).value;
              d.tables == db.tables + TablesIn(ss, i, |ss|) &&
              (forall t :: t in TablesIn(ss, i, |ss|) ==> IsEmpty(d, t)) &&
              (forall t :: t !in TablesIn(ss, i, |ss|) ==> SameRows(db, d, t))
    decreases |ss| - i
  {
    if i < |ss| {
      var t := ss[i].table;
      TablesInStep(ss, i, |ss|);
      var r1 := Exec(ss[i], db, store);
      if r1.Ok? {
        var d1 := r1.value;
        CreateEffect(t, db, store);
        RunFromStep(ss, i, db, store, d1);
        CreateSequence(ss, i + 1, d1, store);
        StepFacts(ss, i, db, d1, RunFrom(ss, i + 1, d1, store), t);
      }
    }
  }

  /** A successful create adds its table, empty, and changes nothing else. */
  lemma CreateEffect(t: Table, db: Database, store: ObjectStore)
    requires Exec(CreateTable(t), db, store).Ok?
    ensures var d := Exec(CreateTable(t), db, store).value;
            d.tables == db.tables + {t} && IsEmpty(d, t) && forall u :: u != t ==> SameRows(db, d, u)
  {
  }

  /** A successful drop removes its table, empty, and changes nothing else. */
  lemma DropEffect(t: Table, cascade: bool, db: Database, store: ObjectStore)
    requires Exec(DropTable(t, cascade), db, store).Ok?
    ensures var d := Exec(DropTable(t, cascade), db, store).value;
            d.tables == db.tables - {t} && (t in db.tables ==> IsEmpty(d, t)) &&
            forall u :: u != t ==> SameRows(db, d, u)
  {
  }

  /** A successful copy appends to its staging table and changes nothing else. */
  lemma CopyEffect(load: Load, s: Statement, db: Database, store: ObjectStore)
    requires s.Copy? && s.load == load && Exec(s, db, store).Ok?
    ensures var d := Exec(s, db, store).value;
            d.tables == db.tables && Target(load) in db.tables &&
            (load == EventLog ==> d.stagingEvents == db.stagingEvents + store.eventLog) &&
            (load == SongMetadata ==> d.stagingSongs == db.stagingSongs + store.songMetadata) &&
            forall u :: u != Target(load) ==> SameRows(db, d, u)
  {
  }

  /** A successful insert appends to its table and changes nothing else. */
  lemma InsertEffect(tr: Transform, s: Statement, db: Database, store: ObjectStore)
    requires s == InsertSelect(tr) && Exec(s, db, store).Ok?
    ensures var d := Exec(s, db, store).value;
            d.tables == db.tables && Fills(tr) in db.tables && d == Insert(db, tr) &&
            forall u :: u != Fills(tr) ==> SameRows(db, d, u)
  {
  }

  /** Composes the effect of one statement on table `t` with the effect of the rest of the run. */
  lemma StepFacts(ss: seq<Statement>, i: nat, db: Database, d1: Database, rest: Result<Database, Failure>, t: Table)
    requires i < |ss| && TablesIn(ss, i, |ss|) == {t} + TablesIn(ss, i + 1, |ss|)
    requires IsEmpty(d1, t) && forall u :: u != t ==> SameRows(db, d1, u)
    requires rest.Ok? ==>
               (forall u :: u in TablesIn(ss, i + 1, |ss|) ==> IsEmpty(rest.value, u)) &&
               (forall u :: u !in TablesIn(ss, i + 1, |ss|) ==> SameRows(d1, rest.value, u))
    ensures rest.Ok? ==>
              (forall u :: u in TablesIn(ss, i, |ss|) ==> IsEmpty(rest.value, u)) &&
              (forall u :: u !in TablesIn(ss, i, |ss|) ==> SameRows(db, rest.value, u))
  {
    if rest.Ok? {
      var d := rest.value;
      forall u | u in TablesIn(ss, i, |ss|)
        ensures IsEmpty(d, u)
      {
        if u !in TablesIn(ss, i + 1, |ss|) {
          assert u == t && IsEmpty(d1, u) && SameRows(d1, d, u);
        }
      }
      forall u | u !in TablesIn(ss, i, |ss|)
        ensures SameRows(db, d, u)
      {
        assert SameRows(db, d1, u) && SameRows(d1, d, u);
      }
    }
  }

  /**
   * From a consistent state, a list of drops succeeds exactly when it drops
   * in dependency order; then the named tables are gone and empty, and no
   * other table changes.
   */
  lemma {:induction false} DropSequence(ss: seq<Statement>, i: nat, db: Database, store: ObjectStore)
    requires Consistent(db)
    requires i <= |ss| && forall k :: i <= k < |ss| ==> ss[k].DropTable?
    ensures RunFrom(ss, i, db, store).Ok? <==> DropsInDependencyOrder(db.tables, ss, i)
    ensures RunFrom(ss, i, db, store).Ok? ==>
              var d := RunFrom(ss, i, db, store).value;
              d.tables == db.tables - TablesIn(ss, i, |ss|) &&
              (forall t :: t in TablesIn(ss, i, |ss|) ==> IsEmpty(d, t)) &&
              (forall t :: t !in TablesIn(ss, i, |ss|) ==> SameRows(db, d, t))
    decreases |ss| - i
  {
    if i < |ss| {
      var t := ss[i].table;
      TablesInStep(ss, i, |ss|);
      var r1 := Exec(ss[i], db, store);
      if r1.Ok? {
        var d1 := r1.value;
        DropEffect(t, ss[i].cascade, db, store);
        ExecKeepsConsistent(ss[i], db, store);
        RunFromStep(ss, i, db, store, d1);
        DropSequence(ss, i + 1, d1, store);
        StepFacts(ss, i, db, d1, RunFrom(ss, i + 1, d1, store), t);
      }
    }
  }

  /**
   * In a list that creates in dependency order from index `j`, a later create
   * names a table that neither existed nor was created since `j`, and every
   * table it references existed or was created since `j`.
   */
  lemma {:induction false} CreatesInOrderAt(existing: set<Table>, ss: seq<Statement>, j: nat, i: nat)
    requires j <= i < |ss| && CreatesInDependencyOrder(existing, ss, j)
    ensures ss[i].CreateTable?
    ensures ss[i].table !in existing + TablesIn(ss, j, i)
    ensures References(ss[i].table) <= existing + TablesIn(ss, j, i)
    decreases i - j
  {
    if j < i {
      CreatesInOrderAt(existing + {ss[j].table}, ss, j + 1, i);
      TablesInStep(ss, j, i);
    }
  }

  /**
   * Creating a table before a table it references fails, whatever else the
   * list creates, when the referenced table did not exist beforehand.
   */
  lemma CreateBeforeReferencedFails(ss: seq<Statement>, db: Database, store: ObjectStore, i: nat, j: nat)
    requires forall k :: 0 <= k < |ss| ==> ss[k].CreateTable?
    requires i < j < |ss| && ss[j].table in References(ss[i].table) && ss[j].table !in db.tables
    ensures Run(ss, db, store).Err?
  {
    CreateSequence(ss, 0, db, store);
    if CreatesInDependencyOrder(db.tables, ss, 0) {
      var u := ss[j].table;
      CreatesInOrderAt(db.tables, ss, 0, i);
      assert u in TablesIn(ss, 0, i);
      var k :| 0 <= k < i && ss[k].table == u;
      assert u in TablesIn(ss, 0, j);
      CreatesInOrderAt(db.tables, ss, 0, j);
    }
  }

  /** Dropping a dimension table while the fact table exists fails without `cascade`. */
  lemma DropReferencedTableFails(t: Table, db: Database, store: ObjectStore)
    requires t in References(Songplays) && t in db.tables && Songplays in db.tables
    ensures Exec(DropTable(t, false), db, store) == Err(DependentObjectsExist(t))
  {
    NoSelfReference(Songplays);
  }

  // ---------------------------------------------------------------------
  // The four lists
  // ---------------------------------------------------------------------

  /** Every table in the create list comes after every table it references. */
  lemma CreateListRespectsReferences()
    ensures forall i, j :: 0 <= i < |CreateTableQueries| && 0 <= j < |CreateTableQueries| ==>
              (CreateTableQueries[j].table in References(CreateTableQueries[i].table) ==> j < i)
  {
    forall i | 0 <= i < |CreateTableQueries| {
      ReferencesOfTables(CreateTableQueries[i].table);
    }
  }

  /** Every table in the drop list comes after every table that references it. */
  lemma DropListRespectsReferences()
    ensures forall i, j :: 0 <= i < |DropTableQueries| && 0 <= j < |DropTableQueries| ==>
              (DropTableQueries[i].table in References(DropTableQueries[j].table) ==> j < i)
  {
    forall j | 0 <= j < |DropTableQueries| {
      ReferencesOfTables(DropTableQueries[j].table);
    }
  }

  /** The drop list names all seven tables, each once. */
  lemma DropListNamesEveryTable()
    ensures TablesIn(DropTableQueries, 0, |DropTableQueries|) == AllTables
    ensures |DropTableQueries| == |AllTables|
  {
    var d := DropTableQueries;
    assert d[0].table == StagingEvents && d[1].table == StagingSongs && d[2].table == Songplays;
    assert d[3].table == Users && d[4].table == Songs && d[5].table == Artists && d[6].table == Times;
    forall t ensures t in TablesIn(d, 0, |d|) && t in AllTables {
      AllTablesComplete(t);
    }
  }

  /** Only the fact table's drop cascades, and its text ends with the keyword. */
  lemma DropListCascadesOnlyFact()
    ensures forall i :: 0 <= i < |DropTableQueries| ==>
              (DropTableQueries[i].cascade <==> DropTableQueries[i].table == Songplays)
    ensures DropText(DropTableQueries[2].table, DropTableQueries[2].cascade) == "DROP TABLE IF EXISTS songplays cascade"
    ensures DropText(DropTableQueries[3].table, DropTableQueries[3].cascade) == "DROP TABLE IF EXISTS users"
  {
  }

  /** The create list names all seven tables, each once. */
  lemma CreateListNamesEveryTable()
    ensures TablesIn(CreateTableQueries, 0, |CreateTableQueries|) == AllTables
    ensures |CreateTableQueries| == |AllTables|
  {
    var c := CreateTableQueries;
    assert c[0].table == StagingEvents && c[1].table == StagingSongs && c[2].table == Users;
    assert c[3].table == Songs && c[4].table == Artists && c[5].table == Times && c[6].table == Songplays;
    forall t ensures t in TablesIn(c, 0, |c|) && t in AllTables {
      AllTablesComplete(t);
    }
  }

  /** One create in dependency order, followed by creates in dependency order. */
  lemma CreateOrderStep(existing: set<Table>, ss: seq<Statement>, i: nat, next: set<Table>)
    requires i < |ss| && ss[i].CreateTable? && ss[i].table !in existing && References(ss[i].table) <= existing
    requires next == existing + {ss[i].table} && CreatesInDependencyOrder(next, ss, i + 1)
    ensures CreatesInDependencyOrder(existing, ss, i)
  {
  }

  /** The last two creates, of the time table and then the fact table, are in dependency order. */
  lemma CreateListInOrderFromTimes(c: seq<Statement>)
    requires c == CreateTableQueries
    ensures CreatesInDependencyOrder({StagingEvents, StagingSongs, Users, Songs, Artists}, c, 5)
  {
    var e6 := {StagingEvents, StagingSongs, Users, Songs, Artists, Times};
    ReferencesOfTables(Songplays);
    CreateOrderStep(e6, c, 6, e6 + {Songplays});
    ReferencesOfTables(Times);
    CreateOrderStep(e6 - {Times}, c, 5, e6);
  }

  /** The creates of the song and artist tables are in dependency order. */
  lemma CreateListInOrderFromSongs(c: seq<Statement>)
    requires c == CreateTableQueries
    requires CreatesInDependencyOrder({StagingEvents, StagingSongs, Users, Songs, Artists}, c, 5)
    ensures CreatesInDependencyOrder({StagingEvents, StagingSongs, Users}, c, 3)
  {
    ReferencesOfTables(Artists);
    CreateOrderStep({StagingEvents, StagingSongs, Users, Songs}, c, 4, {StagingEvents, StagingSongs, Users, Songs, Artists});
    ReferencesOfTables(Songs);
    CreateOrderStep({StagingEvents, StagingSongs, Users}, c, 3, {StagingEvents, StagingSongs, Users, Songs});
  }

  /** The create of the user table is in dependency order. */
  lemma CreateListInOrderFromUsers(c: seq<Statement>)
    requires c == CreateTableQueries
    requires CreatesInDependencyOrder({StagingEvents, StagingSongs, Users}, c, 3)
    ensures CreatesInDependencyOrder({StagingEvents, StagingSongs}, c, 2)
  {
    ReferencesOfTables(Users);
    CreateOrderStep({StagingEvents, StagingSongs}, c, 2, {StagingEvents, StagingSongs, Users});
  }

  /** The create of the song staging table is in dependency order. */
  lemma CreateListInOrderFromStagingSongs(c: seq<Statement>)
    requires c == CreateTableQueries
    requires CreatesInDependencyOrder({StagingEvents, StagingSongs}, c, 2)
    ensures CreatesInDependencyOrder({StagingEvents}, c, 1)
  {
    ReferencesOfTables(StagingSongs);
    CreateOrderStep({StagingEvents}, c, 1, {StagingEvents, StagingSongs});
  }

  /** The create of the event staging table comes first and is in dependency order. */
  lemma CreateListInOrderFromStaging(c: seq<Statement>)
    requires c == CreateTableQueries
    requires CreatesInDependencyOrder({StagingEvents}, c, 1)
    ensures CreatesInDependencyOrder({}, c, 0)
  {
    ReferencesOfTables(StagingEvents);
    CreateOrderStep({}, c, 0, {StagingEvents});
  }

  /** The create list creates in dependency order from a warehouse with no tables. */
  lemma CreateListInOrder()
    ensures CreatesInDependencyOrder({}, CreateTableQueries, 0)
  {
    var c := CreateTableQueries;
    CreateListInOrderFromTimes(c);
    CreateListInOrderFromSongs(c);
    CreateListInOrderFromUsers(c);
    CreateListInOrderFromStagingSongs(c);
    CreateListInOrderFromStaging(c);
  }

  /** Once the fact table is gone, or for a table it does not reference, nothing depends on a table. */
  lemma NoDependentsWithoutFact(t: Table, existing: set<Table>)
    requires Songplays !in existing || t !in References(Songplays)
    ensures !HasDependents(t, existing)
  {
    forall u | u in existing && u != t
      ensures t !in References(u)
    {
      ReferencesOfTables(u);
    }
  }

  /** The drop list drops in dependency order whatever tables exist. */
  lemma DropListInOrder(existing: set<Table>)
    ensures DropsInDependencyOrder(existing, DropTableQueries, 0)
  {
    var d := DropTableQueries;
    var e1 := existing - {StagingEvents};
    var e2 := e1 - {StagingSongs};
    var e3 := e2 - {Songplays};
    var e4 := e3 - {Users};
    var e5 := e4 - {Songs};
    var e6 := e5 - {Artists};
    ReferencesOfTables(Songplays);
    assert DropsInDependencyOrder(e6 - {Times}, d, 7);
    NoDependentsWithoutFact(Times, e6);
    assert DropsInDependencyOrder(e6, d, 6);
    NoDependentsWithoutFact(Artists, e5);
    assert DropsInDependencyOrder(e5, d, 5);
    NoDependentsWithoutFact(Songs, e4);
    assert DropsInDependencyOrder(e4, d, 4);
    NoDependentsWithoutFact(Users, e3);
    assert DropsInDependencyOrder(e3, d, 3);
    assert DropsInDependencyOrder(e2, d, 2);
    NoDependentsWithoutFact(StagingSongs, e1);
    assert DropsInDependencyOrder(e1, d, 1);
    NoDependentsWithoutFact(StagingEvents, existing);
  }

  // ---------------------------------------------------------------------
  // The pipeline
  // ---------------------------------------------------------------------

  /** All seven tables, empty. */
  const EmptyTables: Database := NoTables.(tables := AllTables)

  /** The state after the copies: the staging tables hold what object storage holds. */
  function Staged(store: ObjectStore): Database
  {
    EmptyTables.(stagingEvents := store.eventLog, stagingSongs := store.songMetadata)
  }

  /** The state after the inserts: every table holds its transform of the staged rows. */
  function Loaded(store: ObjectStore): Database
  {
    var events := store.eventLog;
    var songs := store.songMetadata;
    Staged(store).(songplays := SongplaysInsert(events, songs), users := UsersInsert(events),
                   songs := SongsInsert(songs), artists := ArtistsInsert(songs), times := TimesInsert(events))
  }

  /** From any consistent state the drop list succeeds and leaves no tables and no rows. */
  lemma DropListEmptiesWarehouse(db: Database, store: ObjectStore)
    requires Consistent(db)
    ensures Run(DropTableQueries, db, store) == Ok(NoTables)
  {
    DropListInOrder(db.tables);
    DropSequence(DropTableQueries, 0, db, store);
    DropListNamesEveryTable();
    var d := Run(DropTableQueries, db, store).value;
    forall t ensures SameRows(d, NoTables, t) {
      AllTablesComplete(t);
    }
    forall t ensures t !in d.tables {
      AllTablesComplete(t);
    }
    Extensionality(d, NoTables);
  }

  /** From no tables the create list succeeds and leaves all seven tables, empty. */
  lemma CreateListBuildsSchema(store: ObjectStore)
    ensures Run(CreateTableQueries, NoTables, store) == Ok(EmptyTables)
  {
    var c := CreateTableQueries;
    CreateListInOrder();
    assert forall k :: 0 <= k < |c| ==> c[k].CreateTable?;
    CreateSequence(c, 0, NoTables, store);
    CreateListNamesEveryTable();
    OnlyEmptyTables(Run(c, NoTables, store).value);
  }

  /** A state in which every table exists and holds no rows is `EmptyTables`. */
  lemma OnlyEmptyTables(d: Database)
    requires AllTables <= d.tables && forall t :: t in AllTables ==> IsEmpty(d, t)
    ensures d == EmptyTables
  {
    forall t ensures t in d.tables && t in AllTables && IsEmpty(d, t) {
      AllTablesComplete(t);
    }
    assert d.tables == AllTables;
    assert IsEmpty(d, StagingEvents) && IsEmpty(d, StagingSongs) && IsEmpty(d, Songplays);
    assert IsEmpty(d, Users) && IsEmpty(d, Songs) && IsEmpty(d, Artists) && IsEmpty(d, Times);
  }

  /** Creating the schema again without dropping it first fails on the first table. */
  lemma CreateWithoutDropFails(db: Database, store: ObjectStore)
    requires StagingEvents in db.tables
    ensures Run(CreateTableQueries, db, store) == Err(AlreadyExists(StagingEvents))
  {
  }

  /** Appending to an empty table leaves exactly the appended rows. */
  lemma EmptyPrefix<T>(x: seq<T>)
    ensures [] + x == x
  {
  }

  /** The copies fill the two empty staging tables from object storage. */
  lemma CopyListStages(iamRole: string, store: ObjectStore)
    ensures Run(CopyTableQueries(iamRole), EmptyTables, store) == Ok(Staged(store))
  {
    var ss := CopyTableQueries(iamRole);
    var d1 := EmptyTables.(stagingEvents := store.eventLog);
    EmptyPrefix(store.eventLog);
    EmptyPrefix(store.songMetadata);
    RunFromStep(ss, 0, EmptyTables, store, d1);
    RunFromStep(ss, 1, d1, store, Staged(store));
  }

  /**
   * Run on any state holding both staging tables, the copies append what
   * object storage holds to what the tables already hold: running them twice
   * stages every row twice.
   */
  lemma CopyListAppends(iamRole: string, db: Database, store: ObjectStore)
    requires StagingEvents in db.tables && StagingSongs in db.tables
    ensures Run(CopyTableQueries(iamRole), db, store) ==
            Ok(db.(stagingEvents := db.stagingEvents + store.eventLog,
                   stagingSongs := db.stagingSongs + store.songMetadata))
  {
    var ss := CopyTableQueries(iamRole);
    var d1 := db.(stagingEvents := db.stagingEvents + store.eventLog);
    var d2 := d1.(stagingSongs := db.stagingSongs + store.songMetadata);
    RunFromStep(ss, 0, db, store, d1);
    RunFromStep(ss, 1, d1, store, d2);
  }

  /**
   * The copies load the event log and the song metadata, each into its own
   * staging table from its own prefix; only the event log needs a path file.
   */
  lemma CopyListSources(iamRole: string)
    ensures var ss := CopyTableQueries(iamRole);
            Target(ss[0].load) == StagingEvents && Target(ss[1].load) == StagingSongs &&
            SourcePath(ss[0].load) != SourcePath(ss[1].load) &&
            Format(ss[0].load).JsonPaths? && Format(ss[1].load) == AutoJson
  {
  }

  /**
   * The fact table is inserted first, while the dimension tables are still
   * empty: its rows reference keys the dimensions do not hold yet.
   */
  lemma FactInsertedBeforeDimensions(store: ObjectStore)
    ensures var d := Exec(InsertTableQueries[0], Staged(store), store).value;
            d.songplays == SongplaysInsert(store.eventLog, store.songMetadata) &&
            d.users == [] && d.songs == [] && d.artists == [] && d.times == []
  {
  }

  /** With every table present, an insert appends its transform's rows. */
  lemma ExecInsert(tr: Transform, db: Database, store: ObjectStore)
    requires AllTables <= db.tables
    ensures Exec(InsertSelect(tr), db, store) == Ok(Insert(db, tr))
  {
    AllTablesComplete(Fills(tr));
  }

  /** With every table present, the insert list appends each transform's rows in turn. */
  lemma InsertListRun(db: Database, store: ObjectStore)
    requires AllTables <= db.tables
    ensures Run(InsertTableQueries, db, store) ==
            Ok(Insert(Insert(Insert(Insert(Insert(db, SongplayTableInsert), UserTableInsert),
                                    SongTableInsert), ArtistTableInsert), TimeTableInsert))
  {
    var ss := InsertTableQueries;
    var d1 := Insert(db, SongplayTableInsert);
    var d2 := Insert(d1, UserTableInsert);
    var d3 := Insert(d2, SongTableInsert);
    var d4 := Insert(d3, ArtistTableInsert);
    ExecInsert(SongplayTableInsert, db, store);
    RunFromStep(ss, 0, db, store, d1);
    ExecInsert(UserTableInsert, d1, store);
    RunFromStep(ss, 1, d1, store, d2);
    ExecInsert(SongTableInsert, d2, store);
    RunFromStep(ss, 2, d2, store, d3);
    ExecInsert(ArtistTableInsert, d3, store);
    RunFromStep(ss, 3, d3, store, d4);
    ExecInsert(TimeTableInsert, d4, store);
    RunFromStep(ss, 4, d4, store, Insert(d4, TimeTableInsert));
  }

  /** The five transforms together append each table's rows, computed from the staging tables. */
  lemma AllInserts(db: Database)
    ensures Insert(Insert(Insert(Insert(Insert(db, SongplayTableInsert), UserTableInsert),
                                 SongTableInsert), ArtistTableInsert), TimeTableInsert) ==
            db.(songplays := db.songplays + SongplaysInsert(db.stagingEvents, db.stagingSongs),
                users := db.users + UsersInsert(db.stagingEvents),
                songs := db.songs + SongsInsert(db.stagingSongs),
                artists := db.artists + ArtistsInsert(db.stagingSongs),
                times := db.times + TimesInsert(db.stagingEvents))
  {
  }

  /** Applied to the staged rows, the five transforms give the loaded state. */
  lemma InsertsOnStaged(store: ObjectStore)
    ensures Insert(Insert(Insert(Insert(Insert(Staged(store), SongplayTableInsert), UserTableInsert),
                                 SongTableInsert), ArtistTableInsert), TimeTableInsert) == Loaded(store)
  {
    var e := store.eventLog;
    var s := store.songMetadata;
    AllInserts(Staged(store));
    EmptyPrefix(SongplaysInsert(e, s));
    EmptyPrefix(UsersInsert(e));
    EmptyPrefix(SongsInsert(s));
    EmptyPrefix(ArtistsInsert(s));
    EmptyPrefix(TimesInsert(e));
  }

  /** The inserts fill every table from the staged rows. */
  lemma InsertListLoads(store: ObjectStore)
    ensures Run(InsertTableQueries, Staged(store), store) == Ok(Loaded(store))
  {
    InsertListRun(Staged(store), store);
    InsertsOnStaged(store);
  }

  /** From any consistent state the whole pipeline succeeds and loads the warehouse from object storage. */
  lemma PipelineLoads(db: Database, iamRole: string, store: ObjectStore)
    requires Consistent(db)
    ensures Run(Pipeline(iamRole), db, store) == Ok(Loaded(store))
  {
    var drops := DropTableQueries;
    var creates := CreateTableQueries;
    var copies := CopyTableQueries(iamRole);
    var inserts := InsertTableQueries;
    DropListEmptiesWarehouse(db, store);
    CreateListBuildsSchema(store);
    CopyListStages(iamRole, store);
    InsertListLoads(store);
    RunAppend(drops, creates, db, store);
    RunAppend(drops + creates, copies, db, store);
    RunAppend(drops + creates + copies, inserts, db, store);
  }

  /** The loaded warehouse is consistent. */
  lemma LoadedConsistent(store: ObjectStore)
    ensures Consistent(Loaded(store))
  {
    forall t ensures t in Loaded(store).tables {
      AllTablesComplete(t);
    }
  }

  /**
   * Re-running the pipeline is a full refresh: the result depends only on
   * what object storage holds now, not on the previous load.
   */
  lemma PipelineRerun(iamRole: string, store1: ObjectStore, store2: ObjectStore)
    ensures Run(Pipeline(iamRole), Loaded(store1), store2) == Ok(Loaded(store2))
  {
    LoadedConsistent(store1);
    PipelineLoads(Loaded(store1), iamRole, store2);
  }

  /** Running the pipeline twice over the same object storage is the same as running it once. */
  lemma PipelineIdempotent(db: Database, iamRole: string, store: ObjectStore)
    requires Consistent(db)
    ensures Run(Pipeline(iamRole) + Pipeline(iamRole), db, store) == Run(Pipeline(iamRole), db, store)
  {
    PipelineLoads(db, iamRole, store);
    PipelineRerun(iamRole, store, store);
    RunAppend(Pipeline(iamRole), Pipeline(iamRole), db, store);
  }

  /**
   * After the pipeline, every fact row's foreign keys are present in the
   * dimension tables, although the warehouse does not enforce them.
   */
  lemma LoadedForeignKeys(store: ObjectStore, r: SongplayRow)
    requires r in Loaded(store).songplays
    ensures r.start_time in TimeKeys(Loaded(store).times)
    ensures r.user_id in UserKeys(Loaded(store).users)
    ensures r.song_id in SongKeys(Loaded(store).songs)
    ensures r.artist_id in ArtistKeys(Loaded(store).artists)
  {
    SongplaysForeignKeys(store.eventLog, store.songMetadata, r);
  }

  /** The transforms read only staging tables and fill distinct tables, so any two commute. */
  lemma InsertsCommute(tr1: Transform, tr2: Transform, db: Database, store: ObjectStore)
    requires AllTables <= db.tables
    ensures Run([InsertSelect(tr1), InsertSelect(tr2)], db, store) ==
            Run([InsertSelect(tr2), InsertSelect(tr1)], db, store)
  {
    var a := [InsertSelect(tr1), InsertSelect(tr2)];
    var b := [InsertSelect(tr2), InsertSelect(tr1)];
    var d1 := Insert(db, tr1);
    var d2 := Insert(db, tr2);
    ExecInsert(tr1, db, store);
    ExecInsert(tr2, db, store);
    ExecInsert(tr2, d1, store);
    ExecInsert(tr1, d2, store);
    RunFromStep(a, 0, db, store, d1);
    RunFromStep(a, 1, d1, store, Insert(d1, tr2));
    RunFromStep(b, 0, db, store, d2);
    RunFromStep(b, 1, d2, store, Insert(d2, tr1));
  }
}
