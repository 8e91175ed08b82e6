# Sparkify warehouse load, modelled in Dafny

Sparkify loads a music-streaming service's activity into an Amazon Redshift
star schema. Its `sql_queries.py` holds the whole load as SQL text:

- seven `CREATE TABLE` statements:
  - two staging tables: `staging_events` and `staging_songs`;
  - the fact table `songplays`;
  - four dimension tables: `users`, `songs`, `artists` and `times`;
- the matching `DROP TABLE IF EXISTS` statements;
- two `COPY` statements that bulk-load JSON from S3 into the staging tables;
- five `INSERT ... SELECT` transforms that fill the star schema from the
  staging tables;
- the four ordered lists a driver runs: drops, creates, copies, inserts.

This project states what those statements do and proves properties of them.

| file | module | contents |
|---|---|---|
| `wrappers.dfy` | `Wrappers` | `Option` for nullable columns and `Result` for statements that fail. |
| `calendar.dfy` | `Calendar` | `start_time` from a millisecond `ts`, plus the calendar fields Redshift extracts from it. |
| `rows.dfy` | `Rows` | One datatype per table row. Nullable columns are `Option`, `real` columns are opaque 32-bit values. |
| `schema.dfy` | `Schema` | Tables, their columns, primary keys, and the fact table's foreign keys. |
| `transforms.dfy` | `Transforms` | Each INSERT ... SELECT as a function from staging rows to inserted rows, in scan order. |
| `statements.dfy` | `Statements` | The statement lists, and running them against a warehouse state. |

`calendar.dfy`:
- `start_time` is `epoch + ts/1000` seconds. The `/` on a `bigint` truncates toward zero.
- The date comes from days-since-epoch by civil-calendar arithmetic, and is proved to round-trip.
- `dayofweek` counts 0 = Sunday to 6 = Saturday. It is proved equal to Sakamoto's formula.
- `week` is the ISO 8601 week number. It is proved equal to its definition from the first Monday of the ISO year.

`statements.dfy`:
- Running a statement either fails with the warehouse's error or yields the next state.
- A list of statements stops at its first failure.
- The state records which tables exist and the rows of each table.
- What S3 holds is a parameter: rows the loader has already parsed.

Behaviour of the code and of Amazon Redshift worth knowing:

- The weekday flag tests `dayofweek IN (1,2,3,4,5)`. With Redshift's numbering (0 = Sunday), that is Monday to Friday.
- The `times` transform has no DISTINCT: it inserts one row per staging event. Two events with non-negative `ts` in the same second give two identical rows.
- `users` and `artists` are not deduplicated:
  - a user with several events gets several rows;
  - an artist gets one row per song.
- The keys in the schema are informational, so inserting a repeated key does not fail. `TimesKeyUnique`, `UsersKeyUnique`, `SongsKeyUnique` and `ArtistsKeyUnique` state exactly when each key holds.
- The fact transform joins on `e.song = s.title` alone. It has no `page` filter and fans out one row per matching song.
- `EXTRACT(year ...)` has no year 0: the model computes dates on the astronomical calendar and reports 1 BC as -1, 2 BC as -2.
- Redshift ignores trailing blanks when it compares VARCHAR values, so `'Yellow '` joins `'Yellow'`. Leading blanks still count.

An `INSERT ... SELECT` without `ORDER BY` fixes no row order. The order of the model's output sequences, and the words "in order" and "scan order" in this README, are the model's own convention. Only facts that do not depend on order are claims about the source: row counts, membership and keys.

## Model

| member | source | states |
|---|---|---|
| Calendar.StartTimeIsContainingSecond | sql_queries.py:146 | For a non-negative `ts`, `start_time` is `t` exactly when `ts` falls in the millisecond range of second `t`. |
| Calendar.StartTimeBeforeEpoch | sql_queries.py:146 | For a negative `ts`, truncating division rounds toward zero: `start_time` is `t` exactly when `1000(t-1) < ts <= 1000t`. |
| Calendar.SameSecondSameStartTime | sql_queries.py:146 | Two non-negative timestamps that differ only below the millisecond-to-second cut give the same `start_time`. |
| Calendar.StartTimeZeroBucket | sql_queries.py:146 | Second 0 collects `ts` from -999 to 999, because the division truncates toward zero rather than flooring. |
| Calendar.CivilFromDays | sql_queries.py:148-151 | The date a day number falls on is a valid date, and converting it back gives the same day number. |
| Calendar.CivilRoundTrip | sql_queries.py:148-151 | Converting a valid date to a day number and back gives the same date. |
| Calendar.DaysFromCivilInjective | sql_queries.py:148-151 | Two valid dates have the same day number exactly when they are the same date. |
| Calendar.FieldsLocateTimestamp | sql_queries.py:147-151 | The extracted hour, day, month and year are in range, the year is never 0, and together they locate the hour that holds the timestamp. |
| Calendar.ExtractedYear | sql_queries.py:151 | The extracted year is never 0, years AD keep their number, and converting it back gives the astronomical year. |
| Calendar.ExtractedYearOfAstronomical | sql_queries.py:151 | Every non-zero year number is the extracted year of its astronomical year, so the numbering is a bijection onto the non-zero years. |
| Calendar.ExampleFirstBCYear | sql_queries.py:151 | The first second of 1 BC reports year -1. |
| Calendar.FieldsOfDateAndHour | sql_queries.py:147-151 | A timestamp inside hour `h` of date `d` extracts exactly `d` and `h`. |
| Calendar.DayOfWeekMatchesSakamoto | sql_queries.py:152 | The day-of-week numbering (0 = Sunday) agrees with Sakamoto's formula on every valid date. |
| Calendar.DayOfWeekAdvances | sql_queries.py:152 | Each day's number is the previous day's plus one, wrapping from Saturday (6) to Sunday (0). |
| Calendar.IsoWeekOfDay | sql_queries.py:149 | The extracted week lies between 1 and 53. |
| Calendar.IsoWeekMatchesDefinition | sql_queries.py:149 | For a day inside ISO year `y`, the week is the number of whole weeks since that year's first Monday, plus one. |
| Calendar.IsoYearStartFacts | sql_queries.py:149 | ISO year `y` starts on a Monday within three days of 1 January `y`. |
| Calendar.IsoYearOf | sql_queries.py:149 | Every day lies in some ISO year: between that year's first Monday and the next year's. |
| Calendar.IsoYearUnique | sql_queries.py:149 | Only one ISO year holds a given day. |
| Calendar.ExampleDateAndHour | sql_queries.py:146-151 | Second 1541990258 is 2018-11-12 at hour 2. |
| Calendar.ExampleWeek | sql_queries.py:149-152 | Second 1541990258 is a Monday (day-of-week 1) in ISO week 46. |
| Schema.ReferencesOfTables | sql_queries.py:64-74 | Only `songplays` declares foreign keys, and it references exactly `times`, `users`, `songs` and `artists`. |
| Schema.NoSelfReference | sql_queries.py:64-74 | No table references itself. |
| Schema.ForeignKeysTargetPrimaryKeys | sql_queries.py:67-70 | Every foreign key targets the referenced table's primary key, from a column of the same name. |
| Schema.ForeignKeyColumnsAgree | sql_queries.py:67-70 | The referencing and referenced columns have the same declared type and are both non-null. |
| Schema.PrimaryKeyDeclared | sql_queries.py:64-121 | Each declared primary key is the first column of its table and is non-null. |
| Schema.NamesDistinct | sql_queries.py:24-121 | Two tables have the same name exactly when they are the same table. |
| Transforms.TimeRowOf | sql_queries.py:144-152 | A `times` row's `start_time` is the event's second. Its year is never 0, its fields form a valid date, and they locate that second's hour. |
| Transforms.TimeRowOfDateAndHour | sql_queries.py:146-151 | An event with a non-negative `ts` stamped in hour `h` of date `d` gets a row with that date and hour. |
| Transforms.TimeRowWeekday | sql_queries.py:152 | `weekday` is true exactly when the row's date is Monday to Friday by Sakamoto's formula. |
| Transforms.TimeRowWeek | sql_queries.py:149 | `week` is the number of whole weeks from the start of the ISO year holding the row's date, plus one. |
| Transforms.TimesInsert | sql_queries.py:143-153 | `times` gets one row per staging event, in order, each derived from that event's `ts`. |
| Transforms.TimesKeyUnique | sql_queries.py:143-153 | The `start_time` key is unique in the output exactly when no two events share a `start_time`. |
| Transforms.SameSecondDuplicatesTimesRow | sql_queries.py:143-153 | Two events with non-negative `ts` in the same second produce identical `times` rows. |
| Transforms.UsersInsert | sql_queries.py:156-165 | `users` gets one row per staging event, in order, with `userId` renamed `user_id` and the other columns copied. |
| Transforms.SongsInsert | sql_queries.py:168-177 | `songs` gets one row per staging song, in order, with the same column values. |
| Transforms.ArtistsInsert | sql_queries.py:179-188 | `artists` gets one row per staging song, in order, with the `artist_` columns renamed. |
| Transforms.UsersKeyUnique | sql_queries.py:156-165 | The `user_id` key is unique in the output exactly when every event has a different `userId`. |
| Transforms.SongsKeyUnique | sql_queries.py:168-177 | The `song_id` key is unique in the output exactly when every staging song has a different `song_id`. |
| Transforms.ArtistsKeyUnique | sql_queries.py:179-188 | The `artist_id` key is unique in the output exactly when every staging song has a different `artist_id`. |
| Transforms.TimesInsertAppend | sql_queries.py:143-153 | Transforming two batches of events in turn gives the same rows as transforming them together. |
| Transforms.UsersInsertAppend | sql_queries.py:156-165 | Transforming two batches of events in turn gives the same rows as transforming them together. |
| Transforms.SongsInsertAppend | sql_queries.py:168-177 | Transforming two batches of songs in turn gives the same rows as transforming them together. |
| Transforms.ArtistsInsertAppend | sql_queries.py:179-188 | Transforming two batches of songs in turn gives the same rows as transforming them together. |
| Transforms.RTrim | sql_queries.py:201 | The value Redshift compares: the longest prefix that does not end in a blank, with only blanks after it. |
| Transforms.RTrimBlanks | sql_queries.py:201 | Padding a value with blanks does not change how it compares. |
| Transforms.RTrimEqual | sql_queries.py:201 | Two values compare equal exactly when both are one string padded with some number of blanks. |
| Transforms.SqlEquals | sql_queries.py:201 | SQL `=` is unknown exactly when a side is NULL, and true exactly when both sides are the same string up to trailing blanks. |
| Transforms.JoinMatchesTitle | sql_queries.py:201 | The join keeps a pair exactly when the event's `song` and the song's `title` are one string padded with blanks. A NULL `song` matches nothing. |
| Transforms.MatchesOf | sql_queries.py:190-202 | One event contributes at most one row per staging song. |
| Transforms.MatchesOfMembership | sql_queries.py:190-202 | A row comes from an event exactly when it is built from that event and a song the event names. |
| Transforms.SongplaysMembership | sql_queries.py:190-202 | A fact row is in the output exactly when some event and some song it names build it. |
| Transforms.FanOut | sql_queries.py:190-202 | An event yields as many rows as there are staging songs whose title equals its `song` up to trailing blanks, and none when its `song` is NULL. |
| Transforms.NullSongNoRows | sql_queries.py:201 | An event whose `song` is NULL contributes no fact row. |
| Transforms.SongplaysInsertAppend | sql_queries.py:190-202 | Joining two batches of events in turn gives the same rows as joining them together. |
| Transforms.PageNotConsulted | sql_queries.py:190-202 | Events that differ only in `page` give the same fact rows, because the join has no page filter. |
| Transforms.SamePairRows | sql_queries.py:190-202 | One event's rows do not depend on its `page`. |
| Transforms.SongplaysForeignKeys | sql_queries.py:190-202 | Over the same staging rows, every fact row's four foreign keys appear in the `times`, `users`, `songs` and `artists` outputs. |
| Transforms.SameStartTimeInBothTransforms | sql_queries.py:193 | An event's `start_time` is computed the same way here and in the `times` transform (line 146), so its fact rows and its `times` row agree. |
| Transforms.ExampleTimeRow | sql_queries.py:143-153 | The event at `ts` 1541990258796 gives the row (1541990258, hour 2, day 12, week 46, month 11, 2018, weekday). |
| Transforms.ExamplePaddedSong | sql_queries.py:201 | An event whose `song` is `Yellow` plus a trailing blank joins the song titled `Yellow`. |
| Transforms.ExampleLeadingBlank | sql_queries.py:201 | An event whose `song` is `Yellow` with a leading blank does not join the song titled `Yellow`. |
| Transforms.ExampleFanOut | sql_queries.py:190-202 | An event naming a title that two staging songs share gives two distinct fact rows, one per song. |
| Statements.CopyTableQueries | sql_queries.py:212 | The copy list has two statements, and both carry the same configured role ARN. |
| Statements.CopyListSources | sql_queries.py:125-137 | The copies load the event log into `staging_events` and the song metadata into `staging_songs`, from different prefixes. Only the event log uses a JSON path file. |
| Statements.Clear | sql_queries.py:10-16 | Emptying a table leaves it with no rows and changes no other table. |
| Statements.Extensionality | sql_queries.py:24-121 | Two states with the same tables and the same rows in every table are the same state. |
| Statements.Exec | sql_queries.py:10-121 | A drop succeeds exactly when it cascades, its table is missing, or no other table references it. A create succeeds exactly when its table is missing and every table it references exists. Copies and inserts never add or remove tables. |
| Statements.CreateEffect | sql_queries.py:24-121 | A successful create adds its table with no rows and changes no other table. |
| Statements.DropEffect | sql_queries.py:10-16 | A successful drop removes its table, empties it if it existed, and changes no other table. |
| Statements.CopyEffect | sql_queries.py:125-137 | A successful copy needs its staging table to exist and keeps the set of tables. It appends the store's rows to that table's old rows and changes no other table. |
| Statements.InsertEffect | sql_queries.py:143-202 | A successful insert needs its target table to exist and keeps the set of tables. It appends its transform's rows, computed from the staging tables, and changes no other table. |
| Statements.ConsistentAfter | sql_queries.py:10-121 | A state stays consistent when only one table changes its rows, no other table disappears, and that table is empty if it no longer exists. |
| Statements.ExecKeepsConsistent | sql_queries.py:10-121 | After a successful statement, a table that does not exist still holds no rows. |
| Statements.RunKeepsConsistent | sql_queries.py:210-213 | After a successful list of statements, a table that does not exist still holds no rows. |
| Statements.RunAppend | sql_queries.py:210-213 | Running two lists in a row is running their concatenation. |
| Statements.CreateSequence | sql_queries.py:210 | A list of creates succeeds exactly when it creates in dependency order. Then the named tables exist and are empty, and no other table changes. |
| Statements.DropSequence | sql_queries.py:211 | From a consistent state, a list of drops succeeds exactly when it drops in dependency order. Then the named tables are gone and empty, and no other table changes. |
| Statements.CreatesInOrderAt | sql_queries.py:210 | In a dependency-ordered create list, each create names a new table, and every table it references already existed or was created earlier. |
| Statements.CreateBeforeReferencedFails | sql_queries.py:64-70 | A create list that creates a table before a missing table it references fails. |
| Statements.DropReferencedTableFails | sql_queries.py:12 | Dropping a dimension table without `cascade` fails while `songplays` exists. |
| Statements.CreateListRespectsReferences | sql_queries.py:210 | In the create list, every table comes after each table it references. |
| Statements.DropListRespectsReferences | sql_queries.py:211 | In the drop list, every table comes after each table that references it. |
| Statements.DropListCascadesOnlyFact | sql_queries.py:10-16 | In the drop list, only the `songplays` drop cascades. It gives the source's text for the `songplays` and `users` drops. |
| Statements.DropListNamesEveryTable | sql_queries.py:211 | The drop list names all seven tables, each once. |
| Statements.CreateListNamesEveryTable | sql_queries.py:210 | The create list names all seven tables, each once. |
| Statements.CreateListInOrder | sql_queries.py:210 | From a warehouse with no tables, the create list creates in dependency order. |
| Statements.NoDependentsWithoutFact | sql_queries.py:64-70 | Once `songplays` is gone, no table has dependents. The same holds for a table `songplays` does not reference. |
| Statements.DropListInOrder | sql_queries.py:211 | Whatever tables exist, the drop list drops in dependency order. |
| Statements.DropListEmptiesWarehouse | sql_queries.py:211 | From any consistent state, the drop list succeeds and leaves no tables and no rows. |
| Statements.OnlyEmptyTables | sql_queries.py:24-121 | A state in which all seven tables exist and hold no rows is the freshly created schema. |
| Statements.CreateListBuildsSchema | sql_queries.py:210 | From no tables, the create list succeeds and leaves all seven tables, empty. |
| Statements.CreateWithoutDropFails | sql_queries.py:210 | Running the create list while `staging_events` exists fails on its first statement. |
| Statements.CopyListStages | sql_queries.py:212 | The copies fill the two empty staging tables with what S3 holds. |
| Statements.CopyListAppends | sql_queries.py:212 | On any state holding both staging tables, the copies append what S3 holds to the rows already there, so a second run stages every row twice. |
| Statements.FactInsertedBeforeDimensions | sql_queries.py:213 | The fact rows are inserted while the dimension tables are still empty. |
| Statements.ExecInsert | sql_queries.py:143-202 | With every table present, an insert succeeds in the model and appends its transform's rows. |
| Statements.AllInserts | sql_queries.py:143-202 | The five transforms together append to each table its rows, computed from the staging tables. |
| Statements.InsertListRun | sql_queries.py:213 | With every table present, the insert list applies the five transforms in list order. |
| Statements.InsertListLoads | sql_queries.py:213 | Starting from the staged state, the insert list fills every table with its transform of the staging rows. |
| Statements.PipelineLoads | sql_queries.py:210-213 | From any consistent state, drop, create, copy and insert succeed in the model and load the warehouse from S3. |
| Statements.LoadedConsistent | sql_queries.py:210-213 | The loaded warehouse is consistent. |
| Statements.PipelineRerun | sql_queries.py:210-213 | Re-running the pipeline is a full refresh: the result depends only on what S3 holds. |
| Statements.PipelineIdempotent | sql_queries.py:210-213 | Running the pipeline twice over the same S3 contents is the same as running it once. |
| Statements.LoadedForeignKeys | sql_queries.py:213 | After the pipeline, every fact row's foreign keys are present in the dimension tables, although the warehouse does not enforce them. |
| Statements.InsertsCommute | sql_queries.py:213 | Once all tables exist, any two inserts give the same state in either order. |

## Left out

- Reading `dwh.cfg` (sql_queries.py:5-6) is file I/O. The role ARN it supplies is a parameter of `CopyTableQueries`.
- The S3 transfer and JSON parsing done by `COPY` (sql_queries.py:125-137) are left out:
  - what the two prefixes hold is given as an `ObjectStore` of parsed rows;
  - the credentials and region text are not modelled.
- `get_load_errors` (sql_queries.py:206) reads a warehouse system table and is not part of the load.
- Physical layout hints have no effect on the rows a statement produces. These are `distkey`, `sortkey` and `diststyle`.
- The `IDENTITY(0,1)` surrogate key `songplay_id` is not computed: `SongplayRow` carries the other seven columns.
- `real` columns are carried as opaque 32-bit values (`Rows.Real4`) and only ever copied, because floating point is not modelled.
- Declared widths are recorded in `Schema.Columns` but not enforced on row values. This covers `varchar(n)`, `char(1)`, `smallint`, `integer` and `bigint`. Redshift's timestamp range is not enforced either.
- Statement texts are not modelled, except the `DROP TABLE IF EXISTS` text (`Statements.DropText`). CREATE, COPY and INSERT statements are datatype values.
- `Statements.Exec`: a COPY never fails once its staging table exists. The model does not capture a role that cannot read the bucket, an unreachable prefix or a rejected row (MAXERROR is 0, so one bad row fails the COPY). An INSERT never fails once its tables exist either. The model does not capture two failures:
  - the `times` INSERT (sql_queries.py:143-153) overflows the `smallint` column `year` when the extracted year is above 32767;
  - the `times` and `songplays` INSERTs fail when `TIMESTAMP 'epoch' + ts/1000 * INTERVAL '1 second'` falls outside Redshift's timestamp range, 4713 BC to 294276 AD.

  So `ExecInsert`, `InsertListLoads`, `PipelineLoads`, `PipelineRerun` and `PipelineIdempotent` hold only when both COPY statements and all five INSERTs succeed: every `ts` inside the timestamp range, and every extracted year at most 32767.
- `Statements.Exec`: a cascading drop is modelled as always succeeding, and it removes only its own table. Dropping the dependent foreign-key constraints is not modelled separately, because the model keeps foreign keys only in the schema.
- `Statements.Pipeline` runs the four lists in the order the driver scripts use (drop, create, copy, insert). The drivers and their database connection are not part of this model.
- Transactions, concurrency and partial failure inside one statement are not modelled. A statement either succeeds entirely or fails with no effect.
