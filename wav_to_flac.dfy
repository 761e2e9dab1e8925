/** The packaged backup script's main block: run the selection, go through
    the selected rows inside `with sqlite3.connect(db_path)`, and commit when
    the loop ends normally. */
module WavToFlac {
  import opened Wrappers
  import opened Sql
  import Paths
  import T = Transactions
  import A = Archival
  import BackupLoop
  import Store

  /** The `--sql` argument: the default query, or a custom one given by what
      running it returns. */
  datatype Selection = DefaultQuery | Custom(result: Result<seq<seq<Val>>, ExecError>)

  /** `cur.execute(sql_query)` and `cur.fetchall()`. */
  function Selected(db: Db, sql: Selection): Result<seq<seq<Val>>, ExecError> {
    match sql
    case DefaultQuery => A.DefaultSelection(db)
    case Custom(result) => result
  }

  /** What the main block leaves in the database file and on disk, what it
      logs and how it ends. */
  function MainEffect(file: Db, locks: seq<bool>, disk: A.Disk, sql: Selection, flacRoot: Paths.Path,
                      transcode: (Paths.Path, Paths.Path) -> bool): (r: (Db, A.Disk, seq<A.FileLog>, A.Ending))
    ensures Selected(file, sql).Err? ==> r == (file, disk, [], A.Stopped(A.StoreError(Selected(file, sql).error)))
    ensures r.3 == A.Finished ==> Selected(file, sql).Ok? && |r.2| == |Selected(file, sql).value|
  {
    match Selected(file, sql)
    case Err(e) => (file, disk, [], A.Stopped(A.StoreError(e)))
    case Ok(rows) =>
      var start := A.Progress(T.Conn(file, file, locks), disk, [], A.Running);
      var p := A.Loop(start, rows, 1, A.BackupStep(flacRoot, transcode));
      A.BackupStepLogsEachRow(flacRoot, transcode);
      A.LoopLogsEveryRow(start, rows, 1, A.BackupStep(flacRoot, transcode));
      (A.Conclude(p).0.committed, p.disk, p.log, A.Conclude(p).1)
  }

  /** The main block on a freshly opened connection. */
  method RunScript(conn: Store.Connection, fs: BackupLoop.FileSystem, sql: Selection, flacRoot: Paths.Path,
                   transcode: (Paths.Path, Paths.Path) -> bool)
    returns (log: seq<A.FileLog>, ending: A.Ending)
    requires conn.working == conn.committed
    modifies conn, fs
    ensures (conn.committed, fs.State(), log, ending)
         == MainEffect(old(conn.committed), old(conn.contention), old(fs.State()), sql, flacRoot, transcode)
  {
    var results := Selected(conn.working, sql);
    if results.Err? {
      conn.Rollback();
      return [], A.Stopped(A.StoreError(results.error));
    }
    var status;
    log, status := BackupLoop.BackupRows(conn, fs, results.value, flacRoot, transcode);
    match status
    case Running =>
      conn.Commit();
      ending := A.Finished;
    case Crashed(f) =>
      ending := A.Stopped(f);
  }

  /** When the loop stops before the tenth row, none of its updates reaches
      the file, while the WAV files converted before the stop are gone. */
  lemma EarlyStopKeepsFile(file: Db, locks: seq<bool>, disk: A.Disk, sql: Selection, flacRoot: Paths.Path,
                           transcode: (Paths.Path, Paths.Path) -> bool)
    requires Selected(file, sql).Ok? && |Selected(file, sql).value| < 10
    ensures var r := MainEffect(file, locks, disk, sql, flacRoot, transcode);
            r.3.Stopped? ==> r.0 == file
  {
    var rows := Selected(file, sql).value;
    var start := A.Progress(T.Conn(file, file, locks), disk, [], A.Running);
    forall k | 1 <= k < 1 + |rows| ensures !A.Tenth(k) {
      assert k % 10 == k;
    }
    A.BackupStepCommitsOnlyAtTenth(flacRoot, transcode);
    A.NoCommitBeforeTenth(start, rows, 1, A.BackupStep(flacRoot, transcode));
  }

  /** When no row awaits a backup, the script changes nothing and logs
      nothing. */
  lemma NothingPendingChangesNothing(file: Db, locks: seq<bool>, disk: A.Disk, flacRoot: Paths.Path,
                                     transcode: (Paths.Path, Paths.Path) -> bool)
    requires A.DefaultSelection(file).Ok?
    requires forall i :: 0 <= i < |file["records"].rows| ==> !A.AwaitsBackup(file["records"].rows[i])
    ensures MainEffect(file, locks, disk, DefaultQuery, flacRoot, transcode) == (file, disk, [], A.Finished)
  {
    var rows := file["records"].rows;
    A.SelectNone(rows, A.AwaitsBackup, A.NameAndPath);
  }
}
