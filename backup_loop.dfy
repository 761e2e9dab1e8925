/** The backup loops of both backup scripts, on a connection and a directory
    tree updated in place, each proved to end as the `Archival` functions
    say. */
module BackupLoop {
  import opened Wrappers
  import opened Sql
  import Paths
  import A = Archival
  import Store

  /** The directory tree the scripts read and write. */
  class FileSystem {
    var files: set<Paths.Path>
    var dirs: set<Paths.Path>

    function State(): A.Disk
      reads this
    {
      A.Disk(files, dirs)
    }

    constructor (disk: A.Disk)
      ensures State() == disk
    {
      files := disk.files;
      dirs := disk.dirs;
    }

    /** `mkdir(parents=True, exist_ok=True)`: the directory and every one
        above it exist afterwards. */
    method MakeDirs(dir: Paths.Path)
      modifies this
      ensures files == old(files) && dirs == old(dirs) + Paths.Ancestors(dir)
      ensures dir != [] ==> dir in dirs
    {
      dirs := dirs + Paths.Ancestors(dir);
      if dir != [] {
        assert dir[..|dir|] == dir;
      }
    }

    /** The ffmpeg run: the FLAC file is written when the WAV file exists
        and the conversion succeeds. */
    method Transcode(wav: Paths.Path, flac: Paths.Path, transcode: (Paths.Path, Paths.Path) -> bool) returns (ok: bool)
      modifies this
      ensures ok <==> wav in old(files) && transcode(wav, flac)
      ensures files == (if ok then old(files) + {flac} else old(files)) && dirs == old(dirs)
    {
      ok := wav in files && transcode(wav, flac);
      if ok {
        files := files + {flac};
      }
    }

    /** `Path.unlink()` on an existing file. */
    method Unlink(p: Paths.Path)
      requires p in files
      modifies this
      ensures files == old(files) - {p} && dirs == old(dirs)
    {
      files := files - {p};
    }
  }

  /** create_flac_path(wav_file, flac_root): the directories are made and the
      FLAC path returned, or an IndexError before anything is made. */
  method CreateFlacPath(fs: FileSystem, wav: Paths.Path, flacRoot: Paths.Path) returns (r: Result<Paths.Path, Paths.PathError>)
    modifies fs
    ensures r == Paths.FlacPath(wav, flacRoot)
    ensures r.Err? ==> fs.State() == old(fs.State())
    ensures r.Ok? ==> fs.files == old(fs.files) && fs.dirs == old(fs.dirs) + Paths.Ancestors(Paths.FlacDir(wav, flacRoot).value)
  {
    if |wav| < 4 {
      return Err(Paths.IndexError);
    }
    var deploymentDate := wav[|wav| - 4];
    var locationId := wav[|wav| - 3];
    var dir := Paths.Child(Paths.Child(Paths.Child(flacRoot, deploymentDate), locationId), "data");
    fs.MakeDirs(dir);
    r := Ok(Paths.Child(dir, Paths.Stem(Paths.Name(wav)) + ".flac"));
  }

  /** The loop body once the WAV path is known. */
  method Convert(conn: Store.Connection, fs: FileSystem, log: seq<A.FileLog>, count: nat, name: Val,
                 wav: Paths.Path, flacRoot: Paths.Path, transcode: (Paths.Path, Paths.Path) -> bool)
    returns (log': seq<A.FileLog>, status: A.Status)
    modifies conn, fs
    ensures A.Progress(conn.State(), fs.State(), log', status)
         == A.Convert(A.Progress(old(conn.State()), old(fs.State()), log, A.Running), count, name, wav, flacRoot, transcode)
  {
    var flac := CreateFlacPath(fs, wav, flacRoot);
    if flac.Err? {
      conn.Rollback();
      return log, A.Crashed(A.ShortPath);
    }
    var ok := fs.Transcode(wav, flac.value, transcode);
    if !ok {
      return log + [A.ConversionFailed], A.Running;
    }
    var updated := conn.CursorExecute(MarkBackedUp, A.MarkArgs(flac.value, name));
    if updated.Err? {
      conn.Rollback();
      return log, A.Crashed(A.StoreError(updated.error));
    }
    if count % 10 == 0 {
      conn.Commit();
    }
    fs.Unlink(wav);
    return log + [A.Converted], A.Running;
  }

  /** The packaged script's loop body. */
  method BackupRow(conn: Store.Connection, fs: FileSystem, log: seq<A.FileLog>, count: nat, row: seq<Val>,
                   flacRoot: Paths.Path, transcode: (Paths.Path, Paths.Path) -> bool)
    returns (log': seq<A.FileLog>, status: A.Status)
    modifies conn, fs
    ensures A.Progress(conn.State(), fs.State(), log', status)
         == A.BackupRow(A.Progress(old(conn.State()), old(fs.State()), log, A.Running), count, row, flacRoot, transcode)
  {
    if |row| != 2 {
      conn.Rollback();
      return log, A.Crashed(A.MalformedRow);
    }
    if !row[1].Text? {
      conn.Rollback();
      return log, A.Crashed(A.NotAPath);
    }
    log', status := Convert(conn, fs, log, count, row[0], Paths.ParsePath(row[1].s), flacRoot, transcode);
  }

  /** The older script's loop body. */
  method LegacyBackupRow(conn: Store.Connection, fs: FileSystem, log: seq<A.FileLog>, count: nat, row: seq<Val>,
                         wavDir: Paths.Path, flacRoot: Paths.Path, transcode: (Paths.Path, Paths.Path) -> bool,
                         find: (set<Paths.Path>, Paths.Path, string) -> Option<Paths.Path>)
    returns (log': seq<A.FileLog>, status: A.Status)
    modifies conn, fs
    ensures A.Progress(conn.State(), fs.State(), log', status)
         == A.LegacyBackupRow(A.Progress(old(conn.State()), old(fs.State()), log, A.Running), count, row,
                              wavDir, flacRoot, transcode, find)
  {
    if row == [] {
      conn.Rollback();
      return log, A.Crashed(A.MalformedRow);
    }
    if !row[0].Text? {
      conn.Rollback();
      return log, A.Crashed(A.NotAPath);
    }
    var wav := find(fs.files, wavDir, row[0].s);
    if wav.None? {
      return log + [A.NotFound], A.Running;
    }
    log', status := Convert(conn, fs, log, count, row[0], wav.value, flacRoot, transcode);
  }

  /** `for count, result in enumerate(results, 1):` in the packaged script. */
  method BackupRows(conn: Store.Connection, fs: FileSystem, rows: seq<seq<Val>>, flacRoot: Paths.Path,
                    transcode: (Paths.Path, Paths.Path) -> bool)
    returns (log: seq<A.FileLog>, status: A.Status)
    modifies conn, fs
    ensures A.Progress(conn.State(), fs.State(), log, status)
         == A.Loop(A.Progress(old(conn.State()), old(fs.State()), [], A.Running), rows, 1, A.BackupStep(flacRoot, transcode))
  {
    ghost var step := A.BackupStep(flacRoot, transcode);
    ghost var goal := A.Loop(A.Progress(conn.State(), fs.State(), [], A.Running), rows, 1, step);
    assert rows[0..] == rows;
    log := [];
    var i := 0;
    while i < |rows|
      invariant 0 <= i <= |rows|
      invariant A.Loop(A.Progress(conn.State(), fs.State(), log, A.Running), rows[i..], i + 1, step) == goal
    {
      assert rows[i..][1..] == rows[i + 1..];
      log, status := BackupRow(conn, fs, log, i + 1, rows[i], flacRoot, transcode);
      if !status.Running? {
        return;
      }
      i := i + 1;
    }
    status := A.Running;
  }

  /** The same loop in the older script. */
  method LegacyBackupRows(conn: Store.Connection, fs: FileSystem, rows: seq<seq<Val>>, wavDir: Paths.Path,
                          flacRoot: Paths.Path, transcode: (Paths.Path, Paths.Path) -> bool,
                          find: (set<Paths.Path>, Paths.Path, string) -> Option<Paths.Path>)
    returns (log: seq<A.FileLog>, status: A.Status)
    modifies conn, fs
    ensures A.Progress(conn.State(), fs.State(), log, status)
         == A.Loop(A.Progress(old(conn.State()), old(fs.State()), [], A.Running), rows, 1,
                   A.LegacyBackupStep(wavDir, flacRoot, transcode, find))
  {
    ghost var step := A.LegacyBackupStep(wavDir, flacRoot, transcode, find);
    ghost var goal := A.Loop(A.Progress(conn.State(), fs.State(), [], A.Running), rows, 1, step);
    assert rows[0..] == rows;
    log := [];
    var i := 0;
    while i < |rows|
      invariant 0 <= i <= |rows|
      invariant A.Loop(A.Progress(conn.State(), fs.State(), log, A.Running), rows[i..], i + 1, step) == goal
    {
      assert rows[i..][1..] == rows[i + 1..];
      log, status := LegacyBackupRow(conn, fs, log, i + 1, rows[i], wavDir, flacRoot, transcode, find);
      if !status.Running? {
        return;
      }
      i := i + 1;
    }
    status := A.Running;
  }
}
