# bat-acoustic-tools: a verified model of the store, the ingestion loop and the backup loop

bat-acoustic-tools processes bat-detector recordings. It stores the
detector's results in an SQLite database, then archives the raw WAV files as
FLAC. This project models the three pieces of state-changing logic behind
that work and proves properties about them.

**The persistence helpers.** A database has a `records` table keyed by a
UNIQUE `file_name` and an `annotations` table. The helpers are
`create_schema`, `table_exists`, `record_exists`, `execute_query` and
`executemany_query`. The last two execute, commit, and on an
`OperationalError` roll back and call themselves again, with no bound.
`execute_query` returns the cursor's `lastrowid` only when its text, stripped
and lower-cased, starts with "insert". It drops the result of a retried call.
- `Sql` models the store as values: tables, rows, rowids, prepare, INSERT,
  the backup UPDATE, and the existence check.
- `Schema` holds the two schemas. The current one has 13 record columns; the
  older one has 7 and no backup columns.
- `QueryText` is the insert test on statement text.
- `Transactions` holds the helpers as recursive functions on a connection
  value: the file's committed state, the connection's working state, and a
  finite sequence saying which coming attempts find the file locked.
- `Store` is the same connection as a class, updated in place. Each method is
  proved equal to its `Transactions` function.

**The ingestion loop.** This is `main` of the packaged `process_wavs.py` and of
the older `wav_to_sqlite.py`.
- Each audio file whose base name is already stored is skipped.
- Otherwise the loop inserts one `records` row from the detector's output
  and the file's GUANO metadata, and the insert helper commits it.
- Then it inserts one `annotations` row per detected call, tagged with the
  returned row id, and commits.
- `Ingestion` holds the loop body and the loop as functions.
- `IngestionLoop` holds them as methods on a `Store.Connection`.
- `ProcessWavs` and `WavToSqlite` hold each script's `main`.

**The backup loop.** This is the `__main__` block of the packaged
`wav_to_flac.py` and of the older one. The script selects records awaiting a
backup. For each one it:
- derives the FLAC path with `create_flac_path`, which also makes the
  directories;
- runs ffmpeg;
- marks the row with `backup = 'yes'` and `backup_path` through a bare cursor;
- commits at every tenth position;
- deletes the WAV file.

The packaged script reads the WAV path from `record_path`. The older one
searches for the file by name.
- `Paths` models `pathlib` parts, `str`/`Path` conversion, `.name`, `.stem`,
  joining, and `create_flac_path`.
- `Archival` holds the loop body and the loop as functions over a connection
  value and a disk.
- `BackupLoop` holds them as methods on a `Store.Connection` and a
  `FileSystem` class.
- `WavToFlac` and `LegacyWavToFlac` hold each script's main block.

External tools are parameters: the detector, the GUANO reader, ffmpeg, the
file search and the audio listing. Floats are opaque `real` values.

## Behaviour worth knowing

Each item is what the code does, read from its statements and comments.
- **Not atomic.** A record and its annotations are not written in one
  transaction. The insert helper commits the record before the annotations
  are written (`Ingestion.RecordCommittedFirst`).
- **Retries are unbounded.** The helpers catch every `OperationalError`,
  roll back and call themselves again. A missing table or column fails the
  same way on every attempt, so the call never returns
  (`Transactions.ExecuteQueryDiverges`,
  `Ingestion.CurrentScriptHangsOnLegacySchema`,
  `ProcessWavs.OlderDatabaseHangs`).
- **Missing metadata stops the run.** A file without GUANO metadata raises
  an error nothing catches. The run stops there. Files handled before it
  stay stored, because the helper committed each of them. This file gets no
  row, and later files are not looked at.
- **The WAV is deleted before its update is durable.** Away from a tenth
  position, the marking update is still uncommitted when the WAV is deleted.
  If the next selected row then raises (a `record_path` with fewer than four
  parts), the update is rolled back for good while the WAV is gone
  (`Archival.DeletedBeforeDurable`).
- **A locked update stops the run.** The backup scripts call
  `cursor.execute` directly for the marking update, so a lock there is not
  retried (`Archival.ConvertLocked`).
- **Schema and query mismatches.** Neither backup script's default query runs
  on a database laid down by the older schema, which has no `backup` column
  (`Archival.SelectionsOnSchemas`). A record written by the older ingestion
  script is never selected by either (`Archival.OlderRecordNeverSelected`).
- **table_exists looks at `records` only.** A file with `records` and no
  `annotations` passes the scripts' guard, so create_schema is not called
  and `annotations` stays missing (`Schema.GuardLooksOnlyAtRecords`).
- **Four-part rooted paths.** For a rooted four-part WAV path, the 4th-last
  part is the root itself. Joining it replaces the FLAC root
  (`Paths.FlacPathFourRooted`).

## Model

| member | source | states |
|---|---|---|
| Sql.BindKeys | src/bat_acoustic_tools/process_wavs.py:26-27 | an INSERT sets exactly the columns it names |
| Sql.BindOutside | wav_to_sqlite.py:26-27 | a column the INSERT does not name is not set and reads as NULL |
| Sql.BindReadsBack | tests.py:66-72 | each named column reads back the argument at its position |
| Sql.MaxId | src/bat_acoustic_tools/db/utils.py:32 | the largest rowid in use bounds every row's id and is attained (0 for an empty table) |
| Sql.NextIdFresh | src/bat_acoustic_tools/db/utils.py:32 | a new row's INTEGER PRIMARY KEY is larger than every id in use, and the next one follows it directly |
| Sql.Execute | src/bat_acoustic_tools/db/utils.py:138 | a prepared statement keeps the schema (tables, columns, UNIQUE sets), and its only failures are not OperationalErrors |
| Sql.ExecuteAll | src/bat_acoustic_tools/db/utils.py:89 | executemany keeps the schema, and halts only on an error that is not an OperationalError |
| Sql.AnyNamed | src/bat_acoustic_tools/db/utils.py:72-76 | the scan is true iff some row's file_name equals the value |
| Sql.RecordExistsIffNamed | src/bat_acoustic_tools/db/utils.py:70-78 | record_exists returns true exactly when some records row has that file_name, and changes nothing |
| Sql.NamedKept | src/bat_acoustic_tools/process_wavs.py:60-62 | a stored file_name stays stored once the database is only extended |
| Sql.InsertAppends | tests.py:66-72 | a successful INSERT appends one row with the bound values and a fresh rowid, which it reports; other tables are untouched |
| Sql.DuplicateUniqueRejected | src/bat_acoustic_tools/db/utils.py:33 | an INSERT repeating a stored non-NULL UNIQUE value fails with an IntegrityError |
| Sql.InsertManyAppends | tests/processing_test.py:77-91 | executemany into a table without UNIQUE columns appends one row per tuple, in order, with consecutive fresh ids |
| Sql.InsertManyOnlyThatTable | src/bat_acoustic_tools/db/utils.py:89 | executemany of an INSERT changes no other table |
| Sql.InsertManyExtends | src/bat_acoustic_tools/db/utils.py:89 | executemany of such an INSERT keeps the schema and every earlier row |
| Sql.MarkTouchesOnlyNamedRows | src/bat_wav_processing/wav_to_flac.py:121-125 | the marking UPDATE sets backup 'yes' and backup_path on exactly the rows with that file_name; every other row, column and table is unchanged |
| QueryText.LStrip | src/bat_acoustic_tools/db/utils.py:143 | lstrip drops exactly the leading whitespace characters |
| QueryText.RStrip | src/bat_acoustic_tools/db/utils.py:143 | rstrip drops exactly the trailing whitespace characters |
| QueryText.IsInsertIffKeyword | src/bat_acoustic_tools/db/utils.py:143-146 | the insert test holds iff, after leading blanks, the text starts with "insert" in any letter case |
| QueryText.KeywordOfInsert | src/bat_acoustic_tools/db/utils.py:143 | a text passing the test has the keyword right after its leading blanks |
| QueryText.InsertOfKeyword | src/bat_acoustic_tools/db/utils.py:143 | a keyword after blanks passes the test |
| QueryText.LeadingBlanksIrrelevant | src/bat_acoustic_tools/db/utils.py:143 | leading whitespace never changes the test's outcome |
| QueryText.KeywordFirst | src/bat_acoustic_tools/db/utils.py:143 | the keyword in any case, followed by anything, passes |
| QueryText.RecordInsertsAreInserts | src/bat_acoustic_tools/process_wavs.py:26-27 | both scripts' INSERT_RECORD texts pass the test, so their row id is returned |
| QueryText.AnnotationInsertIsInsert | src/bat_acoustic_tools/process_wavs.py:22-24 | INSERT_ANNOTATION passes despite its leading newline and indentation |
| QueryText.UpdateIsNotInsert | src/bat_acoustic_tools/db/utils.py:143-146 | a statement that starts with "update" fails the test |
| Schema.CreateSchema | src/bat_acoustic_tools/db/utils.py:25-67 | both tables exist afterwards, existing tables are untouched, and missing ones are created empty with file_name UNIQUE |
| Schema.CreateSchemaIdempotent | db/utils.py:25-61 | a second create_schema, of either layout, changes nothing |
| Schema.GuardLooksOnlyAtRecords | src/bat_acoustic_tools/process_wavs.py:48-52 | table_exists asks for records alone: a file with records and no annotations passes the guard and keeps no annotations table, though create_schema would add one |
| Schema.CreateSchemaMakesTableExist | src/bat_acoustic_tools/process_wavs.py:48-52 | after create_schema, table_exists is true; it keeps the schema iff both tables were there |
| Schema.LayoutColumns | db/utils.py:31-41 | the older records table has a unique file_name and record_night, and no backup, backup_path or record_path; the current one has all three |
| Transactions.ExecuteQuery | src/bat_acoustic_tools/db/utils.py:101-154 | a returned row id implies the text passes the insert test, and a return leaves nothing pending |
| Transactions.ExecuteMany | src/bat_acoustic_tools/db/utils.py:81-98 | a return gives None and leaves nothing pending |
| Transactions.CursorExecute | src/bat_wav_processing/wav_to_flac.py:121-125 | a bare execute never commits; a lock raises and changes nothing; otherwise it applies the statement to the open transaction |
| Transactions.ExecuteQueryAfterLocks | src/bat_acoustic_tools/db/utils.py:147-152 | the call behaves as its first unlocked attempt on the rolled-back connection, except that a retried call returns None |
| Transactions.ExecuteManyAfterLocks | src/bat_acoustic_tools/db/utils.py:91-96 | locked attempts are rolled back; the call behaves as its first unlocked attempt |
| Transactions.ExecuteQuerySucceeds | src/bat_acoustic_tools/db/utils.py:141-146 | on success the file holds the statement's effect; the row id is returned iff the text is an insert and no attempt was locked; attempts = locked ones + 1 |
| Transactions.ExecuteQueryRaises | src/bat_acoustic_tools/db/utils.py:135-154 | an error other than OperationalError is raised after one unlocked attempt and is not retried; the file is unchanged |
| Transactions.ExecuteQueryDiverges | src/bat_acoustic_tools/db/utils.py:147-152 | a missing table or column makes execute_query retry forever, whatever the locks, and nothing reaches the file |
| Transactions.LocksLeaveNoTrace | src/bat_acoustic_tools/db/utils.py:147-152 | any number of locked attempts before the first free one leaves the same final state |
| Transactions.FalsyParams | src/bat_acoustic_tools/db/utils.py:137-140 | None and () are the same call: the statement runs without values and fails to bind its placeholders |
| Transactions.ExecuteManySucceeds | src/bat_acoustic_tools/db/utils.py:87-96 | on success every row is committed exactly once, after the locked attempts |
| Transactions.ExecuteManyDiverges | db/utils.py:84-89 | a missing table or column makes executemany_query retry forever |
| Store.Connection.constructor | src/bat_acoustic_tools/process_wavs.py:54 | a new connection sees the file with nothing pending |
| Store.Connection.Commit | src/bat_acoustic_tools/process_wavs.py:101 | the open transaction reaches the file |
| Store.Connection.Rollback | src/bat_acoustic_tools/db/utils.py:149 | the open transaction is dropped |
| Store.Connection.TableExists | db/utils.py:8-22 | answers table_exists on what the file holds, through a connection of its own: this connection's pending writes are not seen; changes nothing |
| Store.Connection.CreateSchema | src/bat_acoustic_tools/db/utils.py:25-67 | the file and the connection hold the schema as Schema.CreateSchema lays it |
| Store.Connection.RecordExists | db/utils.py:64-72 | true iff a row carries the name; a missing table or column is an OperationalError; changes nothing |
| Store.Connection.CursorExecute | src/bat_wav_processing/wav_to_flac.py:121-125 | in-place state and result equal Transactions.CursorExecute |
| Store.Connection.ExecuteQuery | src/bat_acoustic_tools/db/utils.py:101-154 | the recursive method's new state and outcome equal Transactions.ExecuteQuery |
| Store.Connection.ExecuteManyQuery | src/bat_acoustic_tools/db/utils.py:81-98 | the recursive method's new state and outcome equal Transactions.ExecuteMany |
| Paths.ParsePath | src/bat_wav_processing/wav_to_flac.py:105 | Path(s).parts is well formed: names, with the root only in front |
| Paths.RFind | src/bat_wav_processing/wav_to_flac.py:73 | the last position of the character, or -1 when it does not occur |
| Paths.Stem | src/bat_wav_processing/wav_to_flac.py:73 | the stem is a prefix of the name |
| Paths.ParsePrinted | src/bat_wav_processing/wav_to_flac.py:105 | Path(str(p)) == p, so record_path gives back the ingested path |
| Paths.WavStem | src/bat_wav_processing/wav_to_flac.py:73 | the stem of "x.wav" is "x", and ".wav" is its own stem |
| Paths.FlacNameIsName | src/bat_wav_processing/wav_to_flac.py:73 | the FLAC file name is a single path part |
| Paths.FlacPathShape | src/bat_wav_processing/wav_to_flac.py:66-73 | create_flac_path gives root/parts[-4]/parts[-3]/data/stem.flac |
| Paths.FlacPathShort | src/bat_wav_processing/wav_to_flac.py:67 | fewer than four parts raise IndexError |
| Paths.FlacPathDependsOnlyOn | wav_to_flac.py:66-73 | two WAV paths that agree on the 4th-last part, the 3rd-last part and the stem get the same FLAC path |
| Paths.FlacPathFourRooted | src/bat_wav_processing/wav_to_flac.py:66-70 | for /a/b/n the 4th-last part is the root, which replaces the FLAC root: the result is /a/data/stem.flac |
| Paths.FlacPathExample | tests/backup_tests.py:11-21 | the unit test's path maps to /home/user/flac/2023-11-01/location_123/data/file.flac |
| Paths.FlacPathExampleShort | tests/backup_tests.py:38-45 | "invalid_path.wav" raises IndexError |
| Paths.AncestorsHoldDir | src/bat_wav_processing/wav_to_flac.py:71 | mkdir(parents=True) leaves the directory itself, and only non-empty prefixes of it |
| Ingestion.RecordArgs | src/bat_acoustic_tools/process_wavs.py:69-78 | one value per column INSERT_RECORD names, in each layout |
| Ingestion.AnnotationRows | src/bat_acoustic_tools/process_wavs.py:83-97 | one ten-value tuple per detected call |
| Ingestion.FreshSchemaReady | src/bat_acoustic_tools/process_wavs.py:48-52 | a freshly created schema takes the script's inserts; the current schema also takes the older script's |
| Ingestion.SkipsKnownFile | src/bat_acoustic_tools/process_wavs.py:58-62 | a file whose base name is stored is skipped and nothing changes |
| Ingestion.RecordInserted | src/bat_acoustic_tools/process_wavs.py:80 | the record insert commits exactly one new row and returns its id, or None when it was retried |
| Ingestion.AnnotationsInserted | src/bat_acoustic_tools/process_wavs.py:82-99 | annotation rows are appended in call order with consecutive ids and one record_id; no calls, no rows |
| Ingestion.NewFileIngested | src/bat_acoustic_tools/process_wavs.py:58-101 | a new file ends with its record and one annotation per call committed, tagged with the record id or NULL after a retry |
| Ingestion.CurrentRecordFields | src/bat_acoustic_tools/process_wavs.py:69-78 | the stored record has the detector id, the parent directory's name, serial, timestamp, duration, class, backup "no" and the full path |
| Ingestion.LegacyRecordFields | wav_to_sqlite.py:106-115 | the older record has the six values and NULL backup and record_path |
| Ingestion.AnnotationFields | src/bat_acoustic_tools/process_wavs.py:83-97 | the k-th annotation row carries record_id and the k-th call's fields |
| Ingestion.RecordCommittedFirst | src/bat_acoustic_tools/process_wavs.py:80-101 | the record is durable before any annotation is written, and a later run skips that file |
| Ingestion.CurrentScriptHangsOnLegacySchema | src/bat_acoustic_tools/process_wavs.py:80 | the 8-column insert on the older table retries forever, with the file as it was |
| Ingestion.RerunChangesNothing | src/bat_acoustic_tools/process_wavs.py:60-62 | a run over files that are all stored changes nothing |
| Ingestion.IngestFileExtends | src/bat_acoustic_tools/process_wavs.py:55-101 | each step keeps the file ready, leaves nothing pending, only appends rows, and stores the file when it has metadata |
| Ingestion.IngestAllStoresEveryFile | src/bat_acoustic_tools/process_wavs.py:55-101 | with metadata everywhere, the loop goes through every file, stores each one, and only appends rows |
| IngestionLoop.Settle | src/bat_acoustic_tools/process_wavs.py:54 | leaving the loop on an error rolls back; an endless retry leaves the connection as is |
| IngestionLoop.IngestFile | src/bat_acoustic_tools/process_wavs.py:58-101 | the in-place loop body equals Ingestion.IngestFile |
| IngestionLoop.IngestFiles | src/bat_acoustic_tools/process_wavs.py:55-101 | the while loop equals Ingestion.IngestAll |
| ProcessWavs.MainEffect | src/bat_acoustic_tools/process_wavs.py:41-46 | an empty directory exits before any change, and only then |
| ProcessWavs.RunScript | src/bat_acoustic_tools/process_wavs.py:30-103 | the method's effect on the file and its ending equal MainEffect |
| ProcessWavs.NewDatabaseFinishes | src/bat_acoustic_tools/process_wavs.py:48-101 | on a database without tables, main creates the schema and stores every file |
| ProcessWavs.KnownFilesChangeNothing | src/bat_acoustic_tools/process_wavs.py:58-62 | when every listed file is stored, main changes nothing |
| ProcessWavs.SecondRunAddsNothing | src/bat_acoustic_tools/process_wavs.py:55-101 | a second run over the same directory adds nothing |
| ProcessWavs.OlderDatabaseHangs | src/bat_acoustic_tools/process_wavs.py:48-80 | on an older-schema database no schema is created, main never ends, and the file is left as it was |
| WavToSqlite.MainEffect | wav_to_sqlite.py:79-91 | an empty directory ends first, and only then; the schema goes to the default file unless records already exists at db_path |
| WavToSqlite.RunScript | wav_to_sqlite.py:61-138 | the method's effect on both files and its ending equal MainEffect |
| WavToSqlite.SchemaGoesToDefaultFile | wav_to_sqlite.py:85-97 | on a new database elsewhere, the schema lands in the default file and the run stops at record_exists with db_path unchanged |
| WavToSqlite.DefaultPathFinishes | wav_to_sqlite.py:85-136 | when db_path is the default file, main goes through every file |
| WavToSqlite.CurrentDatabaseAccepted | wav_to_sqlite.py:106-136 | a current-schema database also takes the 6-column records |
| Archival.Convert | src/bat_wav_processing/wav_to_flac.py:109-138 | logs one outcome; a failed conversion changes nothing; commits only at a tenth position; only the derived FLAC file appears; the WAV goes only on success |
| Archival.BackupRow | src/bat_wav_processing/wav_to_flac.py:95-140 | logs Converted, ConversionFailed or nothing |
| Archival.LegacyBackupRow | wav_to_flac.py:94-130 | a file not found is logged and nothing else changes; the loop goes on only past a row whose first value is a string (anything else makes the search raise TypeError) |
| Archival.Select | src/bat_wav_processing/wav_to_flac.py:86-88 | no more rows than the table holds |
| Archival.Query | src/bat_wav_processing/wav_to_flac.py:86-88 | succeeds iff records and every column used exist; otherwise an OperationalError |
| Archival.SelectExactly | src/bat_wav_processing/wav_to_flac.py:47 | every accepted row is in the result and every result comes from an accepted row |
| Archival.SelectNone | src/bat_wav_processing/wav_to_flac.py:86-88 | the result is empty iff no row is accepted |
| Archival.SelectInOrder | src/bat_wav_processing/wav_to_flac.py:86-88 | the result keeps table order: the result for two runs of rows is the first run's result followed by the second's |
| Archival.SelectCount | src/bat_wav_processing/wav_to_flac.py:86-88 | one result per accepted row: the result for the first n rows is as long as the number of accepted rows among them |
| Archival.IngestedRecordAwaitsBackup | src/bat_wav_processing/wav_to_flac.py:47 | a freshly ingested record is selected iff its class is 'None', and the path read back is the ingested one |
| Archival.OlderRecordNeverSelected | wav_to_flac.py:47 | an older-script record is never selected by either query |
| Archival.ConvertSucceeds | src/bat_wav_processing/wav_to_flac.py:109-133 | FLAC written, WAV deleted, directories made, exactly the named rows marked, and committed only at a tenth position |
| Archival.DeletedBeforeDurable | src/bat_wav_processing/wav_to_flac.py:109-133 | away from a tenth position the WAV is deleted while the file still holds its unmarked row; if the next row's record_path has fewer than four parts, the IndexError rolls the marking back and the WAV stays gone |
| Archival.ConvertDeletes | src/bat_wav_processing/wav_to_flac.py:121-133 | a free update deletes the WAV, uses one lock draw, and away from a tenth position does not touch the file |
| Archival.ConvertLocked | src/bat_wav_processing/wav_to_flac.py:121-125 | a locked update stops the loop and rolls back, with the FLAC written and the WAV kept |
| Archival.SelectionsOnSchemas | src/bat_wav_processing/wav_to_flac.py:47 | both default queries run on the current table; both fail with no such column on the older one |
| Archival.BackupStepLogsEachRow | src/bat_wav_processing/wav_to_flac.py:94-140 | the packaged body logs one entry per row it passes |
| Archival.LegacyBackupStepLogsEachRow | wav_to_flac.py:93-130 | the older body logs one entry per row it passes |
| Archival.LoopLogsEveryRow | src/bat_wav_processing/wav_to_flac.py:94 | a loop that finishes has logged one entry per row, after the earlier ones |
| Archival.BackupStepCommitsOnlyAtTenth | src/bat_wav_processing/wav_to_flac.py:129-130 | the packaged body commits only when the position is a multiple of 10 |
| Archival.LegacyBackupStepCommitsOnlyAtTenth | wav_to_flac.py:120-121 | the older body commits only when the position is a multiple of 10 |
| Archival.NoCommitBeforeTenth | src/bat_wav_processing/wav_to_flac.py:84-130 | rows away from multiples of 10 leave the file as it was until the block ends |
| Archival.NeverNotFound | src/bat_wav_processing/wav_to_flac.py:105-107 | the packaged loop never logs a file as not found |
| BackupLoop.FileSystem.constructor | src/bat_wav_processing/wav_to_flac.py:79-80 | the tree holds the given files and directories |
| BackupLoop.FileSystem.MakeDirs | src/bat_wav_processing/wav_to_flac.py:71 | the directory and all its ancestors exist; files unchanged |
| BackupLoop.FileSystem.Transcode | src/bat_wav_processing/wav_to_flac.py:112-119 | succeeds iff the WAV exists and ffmpeg succeeds, and only then writes the FLAC |
| BackupLoop.FileSystem.Unlink | src/bat_wav_processing/wav_to_flac.py:133 | removes exactly that file |
| BackupLoop.CreateFlacPath | src/bat_wav_processing/wav_to_flac.py:54-73 | returns Paths.FlacPath and makes its directory, or raises IndexError before making anything |
| BackupLoop.Convert | src/bat_wav_processing/wav_to_flac.py:109-138 | the in-place body equals Archival.Convert |
| BackupLoop.BackupRow | src/bat_wav_processing/wav_to_flac.py:95-140 | the in-place body equals Archival.BackupRow |
| BackupLoop.LegacyBackupRow | wav_to_flac.py:94-130 | the in-place body equals Archival.LegacyBackupRow |
| BackupLoop.BackupRows | src/bat_wav_processing/wav_to_flac.py:94-140 | the while loop equals Archival.Loop with the packaged body |
| BackupLoop.LegacyBackupRows | wav_to_flac.py:93-130 | the while loop equals Archival.Loop with the older body |
| WavToFlac.MainEffect | src/bat_wav_processing/wav_to_flac.py:84-140 | a failing selection stops before any change; a finished run logs one entry per selected row |
| WavToFlac.RunScript | src/bat_wav_processing/wav_to_flac.py:76-140 | the method's effect on the file and disk, its log and its ending equal MainEffect |
| WavToFlac.EarlyStopKeepsFile | src/bat_wav_processing/wav_to_flac.py:128-130 | a run that stops before its tenth row leaves the database file unchanged |
| WavToFlac.NothingPendingChangesNothing | src/bat_wav_processing/wav_to_flac.py:47 | when no row awaits backup, nothing changes and nothing is logged |
| LegacyWavToFlac.MainEffect | wav_to_flac.py:84-130 | a failing selection stops before any change; a finished run logs one entry per selected row |
| LegacyWavToFlac.RunScript | wav_to_flac.py:76-130 | the method's effect, log and ending equal MainEffect |
| LegacyWavToFlac.NothingFoundLoop | wav_to_flac.py:129-130 | rows that name a file by a string and whose files are not found change nothing and are all logged as not found |
| LegacyWavToFlac.NothingFoundChangesNothing | wav_to_flac.py:99-130 | when every selected row names a file by a string and none is found, database and disk are unchanged and every row is logged as not found |
| LegacyWavToFlac.NonTextNameStops | wav_to_flac.py:94-99 | a first selected name that is not a string makes the search raise TypeError: the run stops with database and disk unchanged and nothing logged |

## Left out

- The external tools are parameters, not models:
  - the detector (`api.process_file`, `list_audio_files`, `get_config`);
  - the GUANO reader;
  - ffmpeg, as a success oracle per WAV/FLAC pair;
  - `find_file`, as an oracle returning the first match or none.
- The ffmpeg options (bitrate, codec, sample rate, metadata map) and partial FLAC output after an ffmpeg error are not modelled.
- Floats (durations, probabilities, the threshold) are opaque values.
- Logging, `time.sleep` and `sys.exit`'s status are left out. An empty directory is the ending `EmptyDirectory`.
- `Transactions.ExecuteQuery`: endless recursion is the outcome `Diverges` rather than non-termination. Python's recursion limit, which would eventually raise `RecursionError`, is not modelled.
- Lock contention is modelled only where a statement runs.
  - It is drawn for each attempt of the retry helpers and each bare cursor execute.
  - The selections, `record_exists`, `create_schema` and commits never find the file locked.
- Locks from other processes at commit time are not modelled.
- Other connections are modelled only as lock holders. They never change what the file holds while a script runs. A concurrent `create_schema` that would end the endless retrying of `Transactions.ExecuteQueryDiverges` is therefore not modelled.
- A bare cursor execute draws from the lock sequence even when its own transaction already holds the write lock.
- Paths are POSIX only. Windows drive letters and backslashes are not modelled.
- `QueryText.Lower`: lower-casing is modelled for ASCII letters only. Other characters are kept, which cannot change whether a text starts with "insert".
- `is_valid_sqlite_file`, `create_symlink.py`, `import_to_agol.py`, `cli.py`, every `parse_arguments` and `setup_logging`, and the timestamp parser the tests import are not part of this model.
- Foreign keys are declared but not enforced by sqlite3 by default, so they are not modelled. Column type affinity is not modelled either.
- A SELECT returns rows in table order.
- A custom `--sql` query is given by the rows (or the error) it returns.
- `executemany_query` with `params = None` is not modelled: both callers pass a list.
- `wav_to_sqlite.py` imports `execute_query` from `db/utils.py`, which does not define it. The model uses the packaged helper's behaviour.
- `process_wavs.py`'s `__main__` block calls `main()` without its arguments. `ProcessWavs.RunScript` models `main` as called from the command-line wrapper.
- Errors from a selection are not caught by either backup script. They end the run (`Stopped`) before the loop, with no change.
- `mkdir` errors, and the case where a WAV path equals its own FLAC path, are not modelled.
- `Archival.BackupRow`: its own contract only bounds the log. The effect of a row is stated by `Archival.Convert`, `Archival.ConvertSucceeds` and `Archival.ConvertLocked`.
- `Archival.Select`: its own contract only bounds the length. Which rows it returns, in which order and how many, is stated by `Archival.SelectExactly`, `Archival.SelectNone`, `Archival.SelectInOrder` and `Archival.SelectCount`.
- `Paths.Stem`: its own contract only states that the stem is a prefix of the name. The `.wav` case is stated by `Paths.WavStem`.
