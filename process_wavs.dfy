/** The packaged ingestion script: exit on an empty directory, create the
    current schema when `records` is missing, run the per-file loop inside
    `with sqlite3.connect(db_path)`, and commit when it ends normally. */
module ProcessWavs {
  import opened Wrappers
  import opened Sql
  import Schema
  import Paths
  import T = Transactions
  import I = Ingestion
  import Loop = IngestionLoop
  import Store

  /** What main leaves in the database file at `db_path`, and how it ends,
      for the audio files the directory lists and the answers of the detector
      and the GUANO reader. */
  function MainEffect(file: Db, locks: seq<bool>, wavDir: Paths.Path, files: seq<Paths.Path>,
                      detect: Paths.Path -> I.Prediction, guano: Paths.Path -> Option<I.Metadata>): (r: (Db, I.Ending))
    ensures r.1 == I.EmptyDirectory <==> files == []
    ensures files == [] ==> r.0 == file
  {
    if files == [] then (file, I.EmptyDirectory)
    else
      var db := if Schema.TableExists(file) then file else Schema.CreateSchema(file, Schema.Current);
      var run := I.IngestAll(I.Run(T.Conn(db, db, locks), I.Running), Schema.Current, I.LocationOf(wavDir), files, detect, guano);
      (I.Conclude(run).0.committed, I.Conclude(run).1)
  }

  /** main(wav_directory, db_path, threshold) on a freshly opened connection. */
  method RunScript(conn: Store.Connection, wavDir: Paths.Path, files: seq<Paths.Path>,
                   detect: Paths.Path -> I.Prediction, guano: Paths.Path -> Option<I.Metadata>)
    returns (ending: I.Ending)
    requires conn.working == conn.committed
    modifies conn
    ensures (conn.committed, ending) == MainEffect(old(conn.committed), old(conn.contention), wavDir, files, detect, guano)
  {
    var location := I.LocationOf(wavDir);
    if |files| == 0 {
      return I.EmptyDirectory;
    }
    var exists_ := conn.TableExists();
    if !exists_ {
      conn.CreateSchema(Schema.Current);
    }
    var status := Loop.IngestFiles(conn, Schema.Current, location, files, detect, guano);
    match status
    case Running =>
      conn.Commit();
      ending := I.Finished;
    case Crashed(f) =>
      ending := I.Stopped(f);
    case Hung =>
      ending := I.Hangs;
  }

  /** Every file carries GUANO metadata and its detector id is its base name. */
  ghost predicate WellBehaved(files: seq<Paths.Path>, detect: Paths.Path -> I.Prediction,
                              guano: Paths.Path -> Option<I.Metadata>) {
    forall i :: 0 <= i < |files| ==> detect(files[i]).id == Text(Paths.Name(files[i])) && guano(files[i]).Some?
  }

  /** On a database without the two tables, main creates the schema and goes
      through every file, and each of them ends up stored. */
  lemma NewDatabaseFinishes(file: Db, locks: seq<bool>, wavDir: Paths.Path, files: seq<Paths.Path>,
                            detect: Paths.Path -> I.Prediction, guano: Paths.Path -> Option<I.Metadata>)
    requires "records" !in file && "annotations" !in file
    requires files != [] && WellBehaved(files, detect, guano)
    ensures var r := MainEffect(file, locks, wavDir, files, detect, guano);
            && r.1 == I.Finished
            && Extends(Schema.CreateSchema(file, Schema.Current), r.0)
            && forall i :: 0 <= i < |files| ==> Named(r.0, Paths.Name(files[i]))
  {
    var db := Schema.CreateSchema(file, Schema.Current);
    I.FreshSchemaReady(file, Schema.Current, Schema.Current);
    I.IngestAllStoresEveryFile(T.Conn(db, db, locks), Schema.Current, I.LocationOf(wavDir), files, detect, guano);
  }

  /** When every listed file is already stored, main changes nothing. */
  lemma KnownFilesChangeNothing(file: Db, locks: seq<bool>, wavDir: Paths.Path, files: seq<Paths.Path>,
                                detect: Paths.Path -> I.Prediction, guano: Paths.Path -> Option<I.Metadata>)
    requires files != []
    requires forall i :: 0 <= i < |files| ==> Named(file, Paths.Name(files[i]))
    ensures MainEffect(file, locks, wavDir, files, detect, guano) == (file, I.Finished)
  {
    assert Named(file, Paths.Name(files[0]));
    I.RerunChangesNothing(T.Conn(file, file, locks), Schema.Current, I.LocationOf(wavDir), files, detect, guano);
  }

  /** Running main twice over the same directory: the second run adds nothing. */
  lemma SecondRunAddsNothing(file: Db, locks: seq<bool>, locks': seq<bool>, wavDir: Paths.Path, files: seq<Paths.Path>,
                             detect: Paths.Path -> I.Prediction, guano: Paths.Path -> Option<I.Metadata>)
    requires "records" !in file && "annotations" !in file
    requires files != [] && WellBehaved(files, detect, guano)
    ensures var first := MainEffect(file, locks, wavDir, files, detect, guano).0;
            MainEffect(first, locks', wavDir, files, detect, guano) == (first, I.Finished)
  {
    NewDatabaseFinishes(file, locks, wavDir, files, detect, guano);
    var first := MainEffect(file, locks, wavDir, files, detect, guano).0;
    KnownFilesChangeNothing(first, locks', wavDir, files, detect, guano);
  }

  /** A database made by the older schema has `records`, so no schema is
      created; the first new file's 8-column insert names columns that table
      lacks, and main never ends, with the file as it was. */
  lemma OlderDatabaseHangs(file: Db, locks: seq<bool>, wavDir: Paths.Path, files: seq<Paths.Path>,
                           detect: Paths.Path -> I.Prediction, guano: Paths.Path -> Option<I.Metadata>)
    requires "records" in file && file["records"].columns == Schema.LegacyRecordColumns
    requires files != [] && guano(files[0]).Some? && !Named(file, Paths.Name(files[0]))
    ensures MainEffect(file, locks, wavDir, files, detect, guano) == (file, I.Hangs)
  {
    var f := files[0];
    var c := T.Conn(file, file, locks);
    var location := I.LocationOf(wavDir);
    I.CurrentScriptHangsOnLegacySchema(c, location, f, detect(f), guano(f).value);
    var step := I.IngestFile(c, Schema.Current, location, f, detect(f), guano(f));
    assert step.status == I.Hung;
    assert I.IngestAll(I.Run(c, I.Running), Schema.Current, location, files, detect, guano)
        == I.IngestAll(step, Schema.Current, location, files[1..], detect, guano)
        == step;
  }
}
