/** The older backup script's main block: the same as the packaged one, but
    the selection returns only file names and each WAV file is looked up by
    name under the WAV directory. */
module LegacyWavToFlac {
  import opened Wrappers
  import opened Sql
  import Paths
  import T = Transactions
  import A = Archival
  import BackupLoop
  import Store

  /** The `--sql` argument: the default query, or a custom one given by what
      running it returns. */
  datatype Selection = DefaultQuery | Custom(result: Result<seq<seq<Val>>, ExecError>)

  /** `cur.execute(sql_query)` and `cur.fetchall()`. */
  function Selected(db: Db, sql: Selection): Result<seq<seq<Val>>, ExecError> {
    match sql
    case DefaultQuery => A.LegacyDefaultSelection(db)
    case Custom(result) => result
  }

  /** What the main block leaves in the database file and on disk, what it
      logs and how it ends; `find` is the recursive search of find_file. */
  function MainEffect(file: Db, locks: seq<bool>, disk: A.Disk, sql: Selection, wavDir: Paths.Path, flacRoot: Paths.Path,
                      transcode: (Paths.Path, Paths.Path) -> bool,
                      find: (set<Paths.Path>, Paths.Path, string) -> Option<Paths.Path>): (r: (Db, A.Disk, seq<A.FileLog>, A.Ending))
    ensures Selected(file, sql).Err? ==> r == (file, disk, [], A.Stopped(A.StoreError(Selected(file, sql).error)))
    ensures r.3 == A.Finished ==> Selected(file, sql).Ok? && |r.2| == |Selected(file, sql).value|
  {
    match Selected(file, sql)
    case Err(e) => (file, disk, [], A.Stopped(A.StoreError(e)))
    case Ok(rows) =>
      var step := A.LegacyBackupStep(wavDir, flacRoot, transcode, find);
      var start := A.Progress(T.Conn(file, file, locks), disk, [], A.Running);
      var p := A.Loop(start, rows, 1, step);
      A.LegacyBackupStepLogsEachRow(wavDir, flacRoot, transcode, find);
      A.LoopLogsEveryRow(start, rows, 1, step);
      (A.Conclude(p).0.committed, p.disk, p.log, A.Conclude(p).1)
  }

  /** The main block on a freshly opened connection. */
  method RunScript(conn: Store.Connection, fs: BackupLoop.FileSystem, sql: Selection, wavDir: Paths.Path,
                   flacRoot: Paths.Path, transcode: (Paths.Path, Paths.Path) -> bool,
                   find: (set<Paths.Path>, Paths.Path, string) -> Option<Paths.Path>)
    returns (log: seq<A.FileLog>, ending: A.Ending)
    requires conn.working == conn.committed
    modifies conn, fs
    ensures (conn.committed, fs.State(), log, ending)
         == MainEffect(old(conn.committed), old(conn.contention), old(fs.State()), sql, wavDir, flacRoot, transcode, find)
  {
    var results := Selected(conn.working, sql);
    if results.Err? {
      conn.Rollback();
      return [], A.Stopped(A.StoreError(results.error));
    }
    var status;
    log, status := BackupLoop.LegacyBackupRows(conn, fs, results.value, wavDir, flacRoot, transcode, find);
    match status
    case Running =>
      conn.Commit();
      ending := A.Finished;
    case Crashed(f) =>
      ending := A.Stopped(f);
  }

  /** Rows whose files the search does not find are logged and skipped:
      the loop leaves connection and disk as they were. */
  lemma {:induction false} NothingFoundLoop(s: A.Progress, rows: seq<seq<Val>>, count: nat, wavDir: Paths.Path,
                                            flacRoot: Paths.Path, transcode: (Paths.Path, Paths.Path) -> bool,
                                            find: (set<Paths.Path>, Paths.Path, string) -> Option<Paths.Path>)
    requires s.status == A.Running
    requires forall i :: 0 <= i < |rows| ==> rows[i] != [] && rows[i][0].Text? && find(s.disk.files, wavDir, rows[i][0].s) == None
    ensures var r := A.Loop(s, rows, count, A.LegacyBackupStep(wavDir, flacRoot, transcode, find));
            && r.conn == s.conn && r.disk == s.disk && r.status == A.Running
            && |r.log| == |s.log| + |rows| && r.log[..|s.log|] == s.log
            && forall k :: |s.log| <= k < |r.log| ==> r.log[k] == A.NotFound
    decreases |rows|
  {
    if rows != [] {
      var step := A.LegacyBackupStep(wavDir, flacRoot, transcode, find);
      var s1 := s.(log := s.log + [A.NotFound]);
      assert step(s, count, rows[0]) == s1;
      forall i | 0 <= i < |rows[1..]| ensures rows[1..][i] != [] && rows[1..][i][0].Text? && find(s1.disk.files, wavDir, rows[1..][i][0].s) == None {
        assert rows[1..][i] == rows[i + 1];
      }
      NothingFoundLoop(s1, rows[1..], count + 1, wavDir, flacRoot, transcode, find);
      var r := A.Loop(s1, rows[1..], count + 1, step);
      assert r.log[..|s1.log|] == s1.log;
      assert r.log[..|s.log|] == r.log[..|s1.log|][..|s.log|];
    }
  }

  /** When the search finds none of the selected files, the script changes
      neither the database nor the disk and logs every file as not found. */
  lemma NothingFoundChangesNothing(file: Db, locks: seq<bool>, disk: A.Disk, sql: Selection, wavDir: Paths.Path,
                                   flacRoot: Paths.Path, transcode: (Paths.Path, Paths.Path) -> bool,
                                   find: (set<Paths.Path>, Paths.Path, string) -> Option<Paths.Path>)
    requires Selected(file, sql).Ok?
    requires var rows := Selected(file, sql).value;
             forall i :: 0 <= i < |rows| ==> rows[i] != [] && rows[i][0].Text? && find(disk.files, wavDir, rows[i][0].s) == None
    ensures var r := MainEffect(file, locks, disk, sql, wavDir, flacRoot, transcode, find);
            && r.0 == file && r.1 == disk && r.3 == A.Finished
            && |r.2| == |Selected(file, sql).value| && forall k :: 0 <= k < |r.2| ==> r.2[k] == A.NotFound
  {
    var rows := Selected(file, sql).value;
    var start := A.Progress(T.Conn(file, file, locks), disk, [], A.Running);
    NothingFoundLoop(start, rows, 1, wavDir, flacRoot, transcode, find);
  }

  /** A first selected name that is not a string (a NULL file_name, or a
      number from a custom query) makes the search raise TypeError: the run
      stops before any conversion, with the database and the disk unchanged. */
  lemma NonTextNameStops(file: Db, locks: seq<bool>, disk: A.Disk, sql: Selection, wavDir: Paths.Path,
                         flacRoot: Paths.Path, transcode: (Paths.Path, Paths.Path) -> bool,
                         find: (set<Paths.Path>, Paths.Path, string) -> Option<Paths.Path>)
    requires Selected(file, sql).Ok?
    requires var rows := Selected(file, sql).value; rows != [] && rows[0] != [] && !rows[0][0].Text?
    ensures MainEffect(file, locks, disk, sql, wavDir, flacRoot, transcode, find) == (file, disk, [], A.Stopped(A.NotAPath))
  {
    var rows := Selected(file, sql).value;
    var step := A.LegacyBackupStep(wavDir, flacRoot, transcode, find);
    var start := A.Progress(T.Conn(file, file, locks), disk, [], A.Running);
    var stopped := step(start, 1, rows[0]);
    assert stopped == A.Stop(start, A.NotAPath);
    assert A.Loop(start, rows, 1, step) == A.Loop(stopped, rows[1..], 2, step) == stopped;
  }
}
