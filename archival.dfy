/** The backup of recordings to FLAC, as functions: the rows the default
    queries select, and the loop body that converts one selected WAV file,
    marks its record as backed up, commits at every tenth position and
    deletes the WAV. The disk is a value; ffmpeg is an oracle that says
    whether a conversion succeeds. */
module Archival {
  import opened Wrappers
  import opened Sql
  import Paths
  import Schema
  import T = Transactions
  import I = Ingestion

  /** The files and directories on disk, by path. */
  datatype Disk = Disk(files: set<Paths.Path>, dirs: set<Paths.Path>)

  /** What the loop reports for one selected row. */
  datatype FileLog = Converted | ConversionFailed | NotFound

  /** What stops the loop: a store error, a result row of the wrong shape,
      a name or path value that is not a string (TypeError), or a WAV path
      with fewer than four parts (IndexError in create_flac_path). None of
      them is caught. */
  datatype Failure = StoreError(error: ExecError) | MalformedRow | NotAPath | ShortPath

  datatype Status = Running | Crashed(failure: Failure)

  datatype Progress = Progress(conn: T.Conn, disk: Disk, log: seq<FileLog>, status: Status)

  /** How main ends once the selection ran: the loop went through every row,
      or an uncaught error stopped it. */
  datatype Ending = Finished | Stopped(failure: Failure)

  /** An uncaught error leaves the `with` block, which rolls back. */
  function Stop(s: Progress, f: Failure): Progress {
    s.(conn := T.Rollback(s.conn), status := Crashed(f))
  }

  /** The arguments of the marking update: str(backup_path), file_name. */
  function MarkArgs(flac: Paths.Path, name: Val): seq<Val> {
    [Text(Paths.PathString(flac)), name]
  }

  /** The positions at which the loop commits. */
  predicate Tenth(count: nat) {
    count % 10 == 0
  }

  /** The loop body once the WAV path is known, for the row at 1-based
      position `count`: create_flac_path (with its mkdir), the ffmpeg run,
      then the marking update, the commit at every tenth position and the
      deletion of the WAV. ffmpeg succeeds when the WAV is on disk and
      `transcode` says so; its failure is the one error the loop catches. */
  function Convert(s: Progress, count: nat, name: Val, wav: Paths.Path, flacRoot: Paths.Path,
                   transcode: (Paths.Path, Paths.Path) -> bool): (r: Progress)
    requires s.status == Running
    ensures r.status.Running? ==> r.log == s.log + [Converted] || r.log == s.log + [ConversionFailed]
    ensures r.status.Crashed? ==> r.log == s.log && r.conn.working == r.conn.committed
    ensures r.log == s.log + [ConversionFailed] ==> r.conn == s.conn && r.disk.files == s.disk.files
    ensures r.conn.committed == s.conn.committed
         || (Tenth(count) && r.log == s.log + [Converted] && r.conn.committed == r.conn.working)
    ensures !Tenth(count) ==> r.conn.committed == s.conn.committed
    ensures s.disk.dirs <= r.disk.dirs
    ensures forall p :: p in r.disk.files && p !in s.disk.files ==> Paths.FlacPath(wav, flacRoot) == Ok(p)
    ensures wav in s.disk.files && wav !in r.disk.files ==> r.log == s.log + [Converted]
  {
    match Paths.FlacDir(wav, flacRoot)
    case Err(_) => Stop(s, ShortPath)
    case Ok(dir) =>
      var flac := Paths.Child(dir, Paths.Stem(Paths.Name(wav)) + ".flac");
      var made := s.disk.(dirs := s.disk.dirs + Paths.Ancestors(dir));
      if !(wav in made.files && transcode(wav, flac)) then
        s.(disk := made, log := s.log + [ConversionFailed])
      else
        var written := made.(files := made.files + {flac});
        var update := T.CursorExecute(s.conn, MarkBackedUp, MarkArgs(flac, name));
        if update.1.Err? then Stop(s.(conn := update.0, disk := written), StoreError(update.1.error))
        else
          var c := if Tenth(count) then T.Commit(update.0) else update.0;
          assert (s.log + [Converted])[|s.log|] == Converted;
          Progress(c, written.(files := written.files - {wav}), s.log + [Converted], Running)
  }

  /** The packaged script's loop body: `file_name, file_path = result`, and
      the WAV is `Path(file_path)`, which always exists as a value, so the
      "not found" branch is never taken. */
  function BackupRow(s: Progress, count: nat, row: seq<Val>, flacRoot: Paths.Path,
                     transcode: (Paths.Path, Paths.Path) -> bool): (r: Progress)
    requires s.status == Running
    ensures r.log == s.log || r.log == s.log + [Converted] || r.log == s.log + [ConversionFailed]
    ensures !Tenth(count) ==> r.conn.committed == s.conn.committed
  {
    if |row| != 2 then Stop(s, MalformedRow)
    else if !row[1].Text? then Stop(s, NotAPath)
    else Convert(s, count, row[0], Paths.ParsePath(row[1].s), flacRoot, transcode)
  }

  /** The older script's loop body: `file_name = result[0]`, and the WAV is
      the first match of a recursive search under the WAV directory, if any;
      `find` stands for that search on the current disk. The search takes the
      name as a glob pattern, so a name that is not a string (a NULL, or a
      number from a custom query) raises TypeError, which is not caught. */
  function LegacyBackupRow(s: Progress, count: nat, row: seq<Val>, wavDir: Paths.Path, flacRoot: Paths.Path,
                           transcode: (Paths.Path, Paths.Path) -> bool,
                           find: (set<Paths.Path>, Paths.Path, string) -> Option<Paths.Path>): (r: Progress)
    requires s.status == Running
    ensures r.log == s.log + [NotFound] ==> r.conn == s.conn && r.disk == s.disk
    ensures r.status == Running ==> row != [] && row[0].Text?
  {
    if row == [] then Stop(s, MalformedRow)
    else if !row[0].Text? then Stop(s, NotAPath)
    else
      match find(s.disk.files, wavDir, row[0].s)
      case None => s.(log := s.log + [NotFound])
      case Some(wav) =>
        assert (s.log + [NotFound])[|s.log|] == NotFound;
        assert (s.log + [Converted])[|s.log|] == Converted;
        assert (s.log + [ConversionFailed])[|s.log|] == ConversionFailed;
        Convert(s, count, row[0], wav, flacRoot, transcode)
  }

  /** One pass of a loop body on the row at a 1-based position. */
  type Step = (Progress, nat, seq<Val>) -> Progress

  /** `for count, result in enumerate(results, 1):` from position `count` on,
      stopping at the first uncaught error. */
  function Loop(s: Progress, rows: seq<seq<Val>>, count: nat, step: Step): Progress
    decreases |rows|
  {
    if rows == [] || !s.status.Running? then s
    else Loop(step(s, count, rows[0]), rows[1..], count + 1, step)
  }

  /** The packaged script's loop body as a step. */
  function BackupStep(flacRoot: Paths.Path, transcode: (Paths.Path, Paths.Path) -> bool): Step {
    (p: Progress, count: nat, row: seq<Val>) =>
      if p.status == Running then BackupRow(p, count, row, flacRoot, transcode) else p
  }

  /** The older script's loop body as a step. */
  function LegacyBackupStep(wavDir: Paths.Path, flacRoot: Paths.Path, transcode: (Paths.Path, Paths.Path) -> bool,
                            find: (set<Paths.Path>, Paths.Path, string) -> Option<Paths.Path>): Step {
    (p: Progress, count: nat, row: seq<Val>) =>
      if p.status == Running then LegacyBackupRow(p, count, row, wavDir, flacRoot, transcode, find) else p
  }

  /** Leaving the `with` block: a loop that went through every row commits. */
  function Conclude(p: Progress): (T.Conn, Ending) {
    match p.status
    case Running => (T.Commit(p.conn), Finished)
    case Crashed(f) => (p.conn, Stopped(f))
  }

  // ---------------------------------------------------------------------
  // The default selections

  /** A SELECT with a WHERE clause and a column list: the rows `keep`
      accepts, in table order, each as the values `pick` lists. */
  function Select(rows: seq<Row>, keep: Row -> bool, pick: Row -> seq<Val>): (r: seq<seq<Val>>)
    ensures |r| <= |rows|
  {
    if rows == [] then []
    else (if keep(rows[0]) then [pick(rows[0])] else []) + Select(rows[1..], keep, pick)
  }

  /** `class_name = 'None' and backup = 'no' and record_path not NULL`; a
      NULL makes a comparison fail. */
  predicate AwaitsBackup(r: Row) {
    Get(r, "class_name") == Text("None") && Get(r, "backup") == Text("no") && Get(r, "record_path") != Null
  }

  function NameAndPath(r: Row): seq<Val> {
    [Get(r, "file_name"), Get(r, "record_path")]
  }

  /** `class_name = 'None' and backup = 'no' and location_id <> 'CM'`; a NULL
      location fails the comparison too. */
  predicate LegacyAwaitsBackup(r: Row) {
    Get(r, "class_name") == Text("None") && Get(r, "backup") == Text("no")
    && Get(r, "location_id") != Null && Get(r, "location_id") != Text("CM")
  }

  function NameOnly(r: Row): seq<Val> {
    [Get(r, "file_name")]
  }

  /** Running a SELECT: a missing table or column is an OperationalError. */
  function Query(db: Db, columns: seq<string>, keep: Row -> bool, pick: Row -> seq<Val>): (r: Result<seq<seq<Val>>, ExecError>)
    ensures r.Ok? <==> "records" in db && forall c :: c in columns ==> HasColumn(db["records"], c)
    ensures r.Err? ==> IsOperational(r.error)
  {
    if "records" !in db then Err(NoSuchTable("records"))
    else if exists c :: c in columns && !HasColumn(db["records"], c) then Err(NoSuchColumn)
    else Ok(Select(db["records"].rows, keep, pick))
  }

  /** The packaged script's default query. */
  function DefaultSelection(db: Db): Result<seq<seq<Val>>, ExecError> {
    Query(db, ["file_name", "record_path", "class_name", "backup"], AwaitsBackup, NameAndPath)
  }

  /** The older script's default query. */
  function LegacyDefaultSelection(db: Db): Result<seq<seq<Val>>, ExecError> {
    Query(db, ["file_name", "class_name", "backup", "location_id"], LegacyAwaitsBackup, NameOnly)
  }

  // ---------------------------------------------------------------------
  // Properties

  /** A SELECT returns exactly the accepted rows: each accepted row's values
      are in the result, and every result tuple comes from an accepted row. */
  lemma {:induction false} SelectExactly(rows: seq<Row>, keep: Row -> bool, pick: Row -> seq<Val>)
    ensures forall i :: 0 <= i < |rows| && keep(rows[i]) ==> pick(rows[i]) in Select(rows, keep, pick)
    ensures forall t :: t in Select(rows, keep, pick) ==> exists i :: 0 <= i < |rows| && keep(rows[i]) && t == pick(rows[i])
    decreases |rows|
  {
    if rows != [] {
      SelectExactly(rows[1..], keep, pick);
      var head := if keep(rows[0]) then [pick(rows[0])] else [];
      var rest := Select(rows[1..], keep, pick);
      assert Select(rows, keep, pick) == head + rest;
      forall i | 0 <= i < |rows| && keep(rows[i]) ensures pick(rows[i]) in Select(rows, keep, pick) {
        if i > 0 {
          assert rows[i] == rows[1..][i - 1];
        }
      }
      forall t | t in Select(rows, keep, pick) ensures exists i :: 0 <= i < |rows| && keep(rows[i]) && t == pick(rows[i]) {
        if t !in head {
          var j :| 0 <= j < |rows[1..]| && keep(rows[1..][j]) && t == pick(rows[1..][j]);
          assert rows[j + 1] == rows[1..][j];
        }
      }
    }
  }

  /** A SELECT returns nothing exactly when no row is accepted. */
  lemma {:induction false} SelectNone(rows: seq<Row>, keep: Row -> bool, pick: Row -> seq<Val>)
    ensures Select(rows, keep, pick) == [] <==> forall i :: 0 <= i < |rows| ==> !keep(rows[i])
    decreases |rows|
  {
    if rows != [] {
      SelectNone(rows[1..], keep, pick);
      if forall i :: 0 <= i < |rows[1..]| ==> !keep(rows[1..][i]) {
        forall i | 1 <= i < |rows| ensures !keep(rows[i]) {
          assert rows[i] == rows[1..][i - 1];
        }
      }
    }
  }

  /** A SELECT keeps table order: the result for two runs of rows is the
      result for the first followed by the result for the second. With
      the one-row case, which is the definition itself, this fixes the
      result as the accepted rows' values, in table order. */
  lemma {:induction false} SelectInOrder(a: seq<Row>, b: seq<Row>, keep: Row -> bool, pick: Row -> seq<Val>)
    ensures Select(a + b, keep, pick) == Select(a, keep, pick) + Select(b, keep, pick)
    decreases |a|
  {
    if a == [] {
      assert a + b == b;
    } else {
      var head := if keep(a[0]) then [pick(a[0])] else [];
      assert (a + b)[0] == a[0];
      assert (a + b)[1..] == a[1..] + b;
      SelectInOrder(a[1..], b, keep, pick);
      calc {
        Select(a + b, keep, pick);
        head + Select(a[1..] + b, keep, pick);
        head + (Select(a[1..], keep, pick) + Select(b, keep, pick));
        (head + Select(a[1..], keep, pick)) + Select(b, keep, pick);
        Select(a, keep, pick) + Select(b, keep, pick);
      }
    }
  }

  /** One result per accepted row: the result of the first `n` rows is as
      long as the number of accepted positions among them. The commit
      positions of the backup loop count these results. */
  lemma {:induction false} SelectCount(rows: seq<Row>, keep: Row -> bool, pick: Row -> seq<Val>, n: nat)
    requires n <= |rows|
    ensures |Select(rows[..n], keep, pick)| == |set i | 0 <= i < n && keep(rows[i])|
    decreases n
  {
    if n > 0 {
      var last := rows[n - 1];
      SelectCount(rows, keep, pick, n - 1);
      assert rows[..n] == rows[..n - 1] + [last];
      SelectInOrder(rows[..n - 1], [last], keep, pick);
      assert [last][1..] == [];
      assert |Select([last], keep, pick)| == if keep(last) then 1 else 0;
      var before := set i | 0 <= i < n - 1 && keep(rows[i]);
      var after := set i | 0 <= i < n && keep(rows[i]);
      if keep(last) {
        assert after == before + {n - 1};
      } else {
        assert after == before;
      }
    }
  }

  /** A record the current ingestion script stores is selected by the
      packaged backup query exactly when its class is 'None', and the path
      the backup reads back is the path that was ingested. */
  lemma IngestedRecordAwaitsBackup(db: Db, location: string, file: Paths.Path, p: I.Prediction, m: I.Metadata)
    requires "records" in db && Paths.WellFormed(file)
    ensures var row := I.NewRecord(db, Schema.Current, location, file, p, m);
            && (AwaitsBackup(row) <==> p.className == Text("None"))
            && NameAndPath(row) == [p.id, Text(Paths.PathString(file))]
            && Paths.ParsePath(Paths.PathString(file)) == file
  {
    I.CurrentRecordFields(db, location, file, p, m);
    Paths.ParsePrinted(file);
  }

  /** A record the older ingestion script stores has no backup value, so
      neither backup script's default query ever selects it. */
  lemma OlderRecordNeverSelected(db: Db, location: string, file: Paths.Path, p: I.Prediction, m: I.Metadata)
    requires "records" in db
    ensures var row := I.NewRecord(db, Schema.Legacy, location, file, p, m);
            !AwaitsBackup(row) && !LegacyAwaitsBackup(row)
  {
    I.LegacyRecordFields(db, location, file, p, m);
  }

  /** A successful conversion: the FLAC file is written and the WAV deleted,
      the directories exist, the update marks exactly the rows named
      `name` (in the open transaction), and the file holds it only at a
      tenth position. */
  lemma ConvertSucceeds(s: Progress, count: nat, name: Val, wav: Paths.Path, flacRoot: Paths.Path,
                        transcode: (Paths.Path, Paths.Path) -> bool)
    requires s.status == Running && Paths.FlacDir(wav, flacRoot).Ok?
    requires wav in s.disk.files && transcode(wav, Paths.FlacPath(wav, flacRoot).value)
    requires !T.LockedNow(s.conn) && Prepare(s.conn.working, MarkBackedUp) == None
    ensures var r := Convert(s, count, name, wav, flacRoot, transcode);
            var flac := Paths.FlacPath(wav, flacRoot).value;
            var rows := s.conn.working["records"].rows;
            && r.status == Running && r.log == s.log + [Converted]
            && r.disk.files == (s.disk.files + {flac}) - {wav}
            && r.disk.dirs == s.disk.dirs + Paths.Ancestors(Paths.FlacDir(wav, flacRoot).value)
            && "records" in r.conn.working
            && r.conn.working["records"].rows == MarkRows(rows, Text(Paths.PathString(flac)), name)
            && (forall n :: n in s.conn.working && n != "records" ==> n in r.conn.working && r.conn.working[n] == s.conn.working[n])
            && r.conn.committed == (if Tenth(count) then r.conn.working else s.conn.committed)
  {
  }

  /** The WAV is deleted before its update is durable: away from a tenth
      position, the file still holds the unmarked row once the WAV is gone.
      When the next selected row's record_path has fewer than four parts,
      create_flac_path raises IndexError, the `with` block rolls back, and
      the mark is lost for good while the WAV stays deleted. */
  lemma DeletedBeforeDurable(s: Progress, count: nat, name1: Val, wav1: Paths.Path, row2: seq<Val>,
                             flacRoot: Paths.Path, transcode: (Paths.Path, Paths.Path) -> bool)
    requires s.status == Running && s.conn.working == s.conn.committed && !Tenth(count)
    requires Paths.FlacDir(wav1, flacRoot).Ok?
    requires wav1 in s.disk.files && transcode(wav1, Paths.FlacPath(wav1, flacRoot).value)
    requires !T.LockedNow(s.conn) && Prepare(s.conn.working, MarkBackedUp) == None
    requires |row2| == 2 && row2[1].Text? && |Paths.ParsePath(row2[1].s)| < 4
    ensures var after1 := Convert(s, count, name1, wav1, flacRoot, transcode);
            var after2 := BackupRow(after1, count + 1, row2, flacRoot, transcode);
            var flac1 := Paths.FlacPath(wav1, flacRoot).value;
            && wav1 !in after1.disk.files && after1.conn.committed == s.conn.committed
            && "records" in after1.conn.working
            && after1.conn.working["records"].rows
               == MarkRows(s.conn.working["records"].rows, Text(Paths.PathString(flac1)), name1)
            && after2.status == Crashed(ShortPath)
            && after2.conn.committed == after2.conn.working == s.conn.committed
            && wav1 !in after2.disk.files
  {
    ConvertSucceeds(s, count, name1, wav1, flacRoot, transcode);
    var after1 := Convert(s, count, name1, wav1, flacRoot, transcode);
    Paths.FlacPathShort(Paths.ParsePath(row2[1].s), flacRoot);
  }

  /** A successful conversion deletes the WAV, uses exactly one lock draw,
      and away from a tenth position leaves the file's content as it was. */
  lemma ConvertDeletes(s: Progress, count: nat, name: Val, wav: Paths.Path, flacRoot: Paths.Path,
                       transcode: (Paths.Path, Paths.Path) -> bool)
    requires s.status == Running && Paths.FlacDir(wav, flacRoot).Ok?
    requires wav in s.disk.files && transcode(wav, Paths.FlacPath(wav, flacRoot).value)
    requires !T.LockedNow(s.conn) && Prepare(s.conn.working, MarkBackedUp) == None
    ensures var r := Convert(s, count, name, wav, flacRoot, transcode);
            && r.status == Running
            && r.disk.files == (s.disk.files + {Paths.FlacPath(wav, flacRoot).value}) - {wav}
            && r.conn.contention == T.Draw(s.conn).contention
            && (!Tenth(count) ==> r.conn.committed == s.conn.committed)
  {
  }

  /** An update that finds the file locked stops the loop and rolls back,
      after the FLAC file was written and before the WAV is deleted. */
  lemma ConvertLocked(s: Progress, count: nat, name: Val, wav: Paths.Path, flacRoot: Paths.Path,
                      transcode: (Paths.Path, Paths.Path) -> bool)
    requires s.status == Running && Paths.FlacDir(wav, flacRoot).Ok?
    requires wav in s.disk.files && transcode(wav, Paths.FlacPath(wav, flacRoot).value)
    requires T.LockedNow(s.conn)
    ensures var r := Convert(s, count, name, wav, flacRoot, transcode);
            && r.status == Crashed(StoreError(Locked)) && r.log == s.log
            && r.conn.committed == r.conn.working == s.conn.committed
            && r.disk.files == s.disk.files + {Paths.FlacPath(wav, flacRoot).value}
  {
  }

  /** Both default queries run on the current `records` table. Neither runs
      on the older one, which has no `backup` column; the packaged query
      also misses `record_path` there. */
  lemma SelectionsOnSchemas(db: Db)
    requires "records" in db
    ensures db["records"].columns == Schema.RecordColumns ==>
              DefaultSelection(db).Ok? && LegacyDefaultSelection(db).Ok?
    ensures db["records"].columns == Schema.LegacyRecordColumns ==>
              DefaultSelection(db) == Err(NoSuchColumn) && LegacyDefaultSelection(db) == Err(NoSuchColumn)
  {
    if db["records"].columns == Schema.LegacyRecordColumns {
      assert "backup" in ["file_name", "record_path", "class_name", "backup"];
      assert "backup" in ["file_name", "class_name", "backup", "location_id"];
      assert !HasColumn(db["records"], "backup");
    }
  }

  /** A step logs exactly one entry for a row it does not stop at. */
  ghost predicate LogsEachRow(step: Step) {
    forall p: Progress, count: nat, row: seq<Val> {:trigger step(p, count, row)} ::
      p.status == Running && step(p, count, row).status == Running ==>
        |step(p, count, row).log| == |p.log| + 1 && step(p, count, row).log[..|p.log|] == p.log
  }

  /** The packaged loop body logs one entry per row it passes. */
  lemma BackupStepLogsEachRow(flacRoot: Paths.Path, transcode: (Paths.Path, Paths.Path) -> bool)
    ensures LogsEachRow(BackupStep(flacRoot, transcode))
  {
  }

  /** So does the older one. */
  lemma LegacyBackupStepLogsEachRow(wavDir: Paths.Path, flacRoot: Paths.Path, transcode: (Paths.Path, Paths.Path) -> bool,
                                    find: (set<Paths.Path>, Paths.Path, string) -> Option<Paths.Path>)
    ensures LogsEachRow(LegacyBackupStep(wavDir, flacRoot, transcode, find))
  {
  }

  /** A loop that goes through every row has logged one entry per row, after
      what was logged before it. */
  lemma {:induction false} LoopLogsEveryRow(s: Progress, rows: seq<seq<Val>>, count: nat, step: Step)
    requires LogsEachRow(step) && s.status == Running
    ensures var r := Loop(s, rows, count, step);
            r.status == Running ==> |r.log| == |s.log| + |rows| && r.log[..|s.log|] == s.log
    decreases |rows|
  {
    if rows != [] {
      var s1 := step(s, count, rows[0]);
      if s1.status == Running {
        LoopLogsEveryRow(s1, rows[1..], count + 1, step);
        var r := Loop(s1, rows[1..], count + 1, step);
        if r.status == Running {
          assert r.log[..|s1.log|] == s1.log;
          assert r.log[..|s.log|] == r.log[..|s1.log|][..|s.log|];
        }
      }
    }
  }

  /** A step keeps the file as it is away from tenth positions. */
  ghost predicate CommitsOnlyAtTenth(step: Step) {
    forall p: Progress, count: nat, row: seq<Val> {:trigger step(p, count, row)} ::
      !Tenth(count) ==> step(p, count, row).conn.committed == p.conn.committed
  }

  /** The packaged loop body commits only at tenth positions. */
  lemma BackupStepCommitsOnlyAtTenth(flacRoot: Paths.Path, transcode: (Paths.Path, Paths.Path) -> bool)
    ensures CommitsOnlyAtTenth(BackupStep(flacRoot, transcode))
  {
  }

  /** So does the older one. */
  lemma LegacyBackupStepCommitsOnlyAtTenth(wavDir: Paths.Path, flacRoot: Paths.Path,
                                           transcode: (Paths.Path, Paths.Path) -> bool,
                                           find: (set<Paths.Path>, Paths.Path, string) -> Option<Paths.Path>)
    ensures CommitsOnlyAtTenth(LegacyBackupStep(wavDir, flacRoot, transcode, find))
  {
  }

  /** Between the start of a loop and its end, the file only changes at
      tenth positions: a run over rows none of which sits at a multiple of
      ten commits nothing before the `with` block ends. */
  lemma {:induction false} NoCommitBeforeTenth(s: Progress, rows: seq<seq<Val>>, count: nat, step: Step)
    requires CommitsOnlyAtTenth(step)
    requires forall k :: count <= k < count + |rows| ==> !Tenth(k)
    ensures Loop(s, rows, count, step).conn.committed == s.conn.committed
    decreases |rows|
  {
    if rows != [] && s.status.Running? {
      assert !Tenth(count);
      NoCommitBeforeTenth(step(s, count, rows[0]), rows[1..], count + 1, step);
    }
  }

  /** With the path read back from the record, the packaged loop never
      reports a file as not found. */
  lemma {:induction false} NeverNotFound(s: Progress, rows: seq<seq<Val>>, count: nat, flacRoot: Paths.Path,
                                         transcode: (Paths.Path, Paths.Path) -> bool)
    requires NotFound !in s.log
    ensures NotFound !in Loop(s, rows, count, BackupStep(flacRoot, transcode)).log
    decreases |rows|
  {
    if rows != [] && s.status.Running? {
      var s1 := BackupRow(s, count, rows[0], flacRoot, transcode);
      assert NotFound !in s1.log;
      NeverNotFound(s1, rows[1..], count + 1, flacRoot, transcode);
    }
  }
}
