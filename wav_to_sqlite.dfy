/** The older top-level ingestion script. It differs from the packaged one in
    its 6-column record insert and in its schema step: when `records` is
    missing from the database at `db_path`, it calls `create_schema()` without
    a path, so the schema goes to the default file `./sqlite3.db`. Two
    connections model the two paths; they are one object when `db_path` is
    the default path. */
module WavToSqlite {
  import opened Wrappers
  import opened Sql
  import Schema
  import Paths
  import T = Transactions
  import I = Ingestion
  import Loop = IngestionLoop
  import Store

  /** What main leaves at `db_path` and at the default path, and how it
      ends. `sameFile` says whether the two paths are one file. */
  function MainEffect(file: Db, defaultFile: Db, sameFile: bool, locks: seq<bool>, wavDir: Paths.Path,
                      files: seq<Paths.Path>, detect: Paths.Path -> I.Prediction,
                      guano: Paths.Path -> Option<I.Metadata>): (r: (Db, Db, I.Ending))
    ensures sameFile ==> r.0 == r.1
    ensures !sameFile ==> r.1 == (if files == [] || Schema.TableExists(file) then defaultFile
                                  else Schema.CreateSchema(defaultFile, Schema.Legacy))
    ensures r.2 == I.EmptyDirectory <==> files == []
  {
    if files == [] then (file, if sameFile then file else defaultFile, I.EmptyDirectory)
    else
      var create := !Schema.TableExists(file);
      var db := if create && sameFile then Schema.CreateSchema(file, Schema.Legacy) else file;
      var other := if create && !sameFile then Schema.CreateSchema(defaultFile, Schema.Legacy) else defaultFile;
      var run := I.IngestAll(I.Run(T.Conn(db, db, locks), I.Running), Schema.Legacy, I.LocationOf(wavDir), files, detect, guano);
      var end := I.Conclude(run);
      (end.0.committed, if sameFile then end.0.committed else other, end.1)
  }

  /** main() with the database at `db_path` open on `conn` and the default
      file on `defaultConn`. */
  method RunScript(conn: Store.Connection, defaultConn: Store.Connection, wavDir: Paths.Path, files: seq<Paths.Path>,
                   detect: Paths.Path -> I.Prediction, guano: Paths.Path -> Option<I.Metadata>)
    returns (ending: I.Ending)
    requires conn.working == conn.committed && defaultConn.working == defaultConn.committed
    modifies conn, defaultConn
    ensures var r := MainEffect(old(conn.committed), old(defaultConn.committed), conn == defaultConn,
                                old(conn.contention), wavDir, files, detect, guano);
            conn.committed == r.0 && defaultConn.committed == r.1 && ending == r.2
  {
    var location := I.LocationOf(wavDir);
    if |files| == 0 {
      return I.EmptyDirectory;
    }
    var exists_ := conn.TableExists();
    if !exists_ {
      defaultConn.CreateSchema(Schema.Legacy);
    }
    var status := Loop.IngestFiles(conn, Schema.Legacy, location, files, detect, guano);
    match status
    case Running =>
      conn.Commit();
      ending := I.Finished;
    case Crashed(f) =>
      ending := I.Stopped(f);
    case Hung =>
      ending := I.Hangs;
  }

  /** Pointed at a new database that is not the default file, main lays the
      schema down in the default file, then the first record_exists finds no
      `records` table at `db_path`: the run stops there and `db_path` is left
      as it was. */
  lemma SchemaGoesToDefaultFile(file: Db, defaultFile: Db, locks: seq<bool>, wavDir: Paths.Path,
                                files: seq<Paths.Path>, detect: Paths.Path -> I.Prediction,
                                guano: Paths.Path -> Option<I.Metadata>)
    requires "records" !in file && files != []
    ensures MainEffect(file, defaultFile, false, locks, wavDir, files, detect, guano)
         == (file, Schema.CreateSchema(defaultFile, Schema.Legacy), I.Stopped(I.StoreError(NoSuchTable("records"))))
  {
    var c := T.Conn(file, file, locks);
    var f := files[0];
    var step := I.IngestFile(c, Schema.Legacy, I.LocationOf(wavDir), f, detect(f), guano(f));
    assert step == I.Run(c, I.Crashed(I.StoreError(NoSuchTable("records"))));
    assert I.IngestAll(I.Run(c, I.Running), Schema.Legacy, I.LocationOf(wavDir), files, detect, guano)
        == I.IngestAll(step, Schema.Legacy, I.LocationOf(wavDir), files[1..], detect, guano)
        == step;
  }

  /** When `db_path` is the default file and holds no tables, the schema
      lands where the loop looks, and main goes through every file. */
  lemma DefaultPathFinishes(file: Db, locks: seq<bool>, wavDir: Paths.Path, files: seq<Paths.Path>,
                            detect: Paths.Path -> I.Prediction, guano: Paths.Path -> Option<I.Metadata>)
    requires "records" !in file && "annotations" !in file
    requires files != []
    requires forall i :: 0 <= i < |files| ==> detect(files[i]).id == Text(Paths.Name(files[i])) && guano(files[i]).Some?
    ensures var r := MainEffect(file, file, true, locks, wavDir, files, detect, guano);
            && r.2 == I.Finished
            && Extends(Schema.CreateSchema(file, Schema.Legacy), r.0)
            && forall i :: 0 <= i < |files| ==> Named(r.0, Paths.Name(files[i]))
  {
    var db := Schema.CreateSchema(file, Schema.Legacy);
    I.FreshSchemaReady(file, Schema.Legacy, Schema.Legacy);
    I.IngestAllStoresEveryFile(T.Conn(db, db, locks), Schema.Legacy, I.LocationOf(wavDir), files, detect, guano);
  }

  /** A database laid down by the current schema also takes the older
      script's 6-column records: main goes through every file and the
      default file is untouched. */
  lemma CurrentDatabaseAccepted(file: Db, defaultFile: Db, sameFile: bool, locks: seq<bool>, wavDir: Paths.Path,
                                files: seq<Paths.Path>, detect: Paths.Path -> I.Prediction,
                                guano: Paths.Path -> Option<I.Metadata>)
    requires "records" !in file && "annotations" !in file
    requires files != []
    requires forall i :: 0 <= i < |files| ==> detect(files[i]).id == Text(Paths.Name(files[i])) && guano(files[i]).Some?
    ensures var current := Schema.CreateSchema(file, Schema.Current);
            var r := MainEffect(current, defaultFile, sameFile, locks, wavDir, files, detect, guano);
            && r.2 == I.Finished
            && Extends(current, r.0)
            && (!sameFile ==> r.1 == defaultFile)
  {
    var db := Schema.CreateSchema(file, Schema.Current);
    I.FreshSchemaReady(file, Schema.Current, Schema.Legacy);
    I.IngestAllStoresEveryFile(T.Conn(db, db, locks), Schema.Legacy, I.LocationOf(wavDir), files, detect, guano);
  }
}
