/** The per-file step of the ingestion scripts, as functions: skip a file
    whose base name is already stored; otherwise insert one `records` row built
    from the detector's prediction and the file's GUANO metadata, commit it,
    insert one `annotations` row per detected call tagged with the new row id,
    and commit again. `Current` is the packaged script (8-column record),
    `Legacy` the older top-level one (6-column record). */
module Ingestion {
  import opened Wrappers
  import opened Sql
  import QueryText
  import Schema
  import Paths
  import T = Transactions

  /** One detected call, in the column order of `annotations` after record_id. */
  datatype Detection = Detection(
    startTime: Val, endTime: Val, lowFreq: Val, highFreq: Val, speciesClass: Val,
    classProb: Val, detProb: Val, individual: Val, event: Val)

  /** The detector's pred_dict: id, duration, class_name and the calls. */
  datatype Prediction = Prediction(id: Val, duration: Val, className: Val, annotations: seq<Detection>)

  /** The GUANO fields the scripts read. */
  datatype Metadata = Metadata(serial: Val, timestamp: Val)

  /** Why a run stops: a store error it does not catch, or a GUANO file
      without the fields read. */
  datatype Failure = StoreError(error: ExecError) | MetadataMissing

  /** Running: go on with the next file; Crashed: the exception left the
      `with` block, which rolled back; Hung: a helper retries forever. */
  datatype Status = Running | Crashed(failure: Failure) | Hung

  datatype Run = Run(conn: T.Conn, status: Status)

  /** The columns both record inserts name. */
  const SharedRecordColumns: seq<string> :=
    ["file_name", "location_id", "serial", "record_time", "duration", "class_name"]

  /** The columns INSERT_RECORD names. */
  function RecordInsertColumns(layout: Schema.Layout): seq<string> {
    if layout == Schema.Current then SharedRecordColumns + ["backup", "record_path"] else SharedRecordColumns
  }

  function RecordQuery(layout: Schema.Layout): T.Query {
    T.Query(if layout == Schema.Current then QueryText.InsertRecordText else QueryText.LegacyInsertRecordText,
            Insert("records", RecordInsertColumns(layout)))
  }

  function AnnotationQuery(): T.Query {
    T.Query(QueryText.InsertAnnotationText, Insert("annotations", Schema.AnnotationColumns))
  }

  /** record_values: detector id, the directory's location, GUANO serial and
      timestamp, duration, class; the current script adds backup "no" and the
      file's full path. */
  function RecordArgs(layout: Schema.Layout, p: Prediction, location: string, m: Metadata, file: Paths.Path): (args: seq<Val>)
    ensures |args| == |RecordInsertColumns(layout)|
  {
    if layout == Schema.Current then SharedRecordArgs(p, location, m) + [Text("no"), Text(Paths.PathString(file))]
    else SharedRecordArgs(p, location, m)
  }

  function SharedRecordArgs(p: Prediction, location: string, m: Metadata): seq<Val> {
    [p.id, Text(location), m.serial, m.timestamp, p.duration, p.className]
  }

  /** The value stored as record_id: last_row_id, or NULL when it is None. */
  function RowIdVal(rowId: Option<nat>): Val {
    if rowId.Some? then Int(rowId.value) else Null
  }

  function AnnotationArgs(rowId: Option<nat>, d: Detection): seq<Val> {
    [RowIdVal(rowId), d.startTime, d.endTime, d.lowFreq, d.highFreq, d.speciesClass,
     d.classProb, d.detProb, d.individual, d.event]
  }

  /** One argument tuple per detected call, in order, all tagged alike. */
  function AnnotationRows(rowId: Option<nat>, calls: seq<Detection>): (rows: seq<seq<Val>>)
    ensures |rows| == |calls|
    ensures forall k :: 0 <= k < |rows| ==> |rows[k]| == |Schema.AnnotationColumns|
  {
    seq(|calls|, k requires 0 <= k < |calls| => AnnotationArgs(rowId, calls[k]))
  }

  /** `last_row_id = execute_query(conn, INSERT_RECORD, record_values)` */
  function InsertRecord(c: T.Conn, layout: Schema.Layout, location: string, file: Paths.Path,
                        p: Prediction, m: Metadata): (T.Conn, T.Outcome) {
    T.ExecuteQuery(c, RecordQuery(layout), Some(RecordArgs(layout, p, location, m, file)))
  }

  /** The annotation rows, when there are any. */
  function InsertAnnotations(c: T.Conn, rowId: Option<nat>, calls: seq<Detection>): (T.Conn, T.Outcome) {
    if |calls| > 0 then T.ExecuteMany(c, AnnotationQuery(), AnnotationRows(rowId, calls))
    else (c, T.Returned(None))
  }

  /** How a helper call ends, for the loop: an uncaught error leaves the
      `with` block, which rolls back. */
  function Settle(c: T.Conn, o: T.Outcome): Run {
    match o
    case Returned(_) => Run(c, Running)
    case Raised(e) => Run(T.Rollback(c), Crashed(StoreError(e)))
    case Diverges => Run(c, Hung)
  }

  /** The loop body for one audio file, given what the detector and the GUANO
      reader return for it. */
  function IngestFile(c: T.Conn, layout: Schema.Layout, location: string, file: Paths.Path,
                      p: Prediction, meta: Option<Metadata>): Run {
    match RecordExists(c.working, Paths.Name(file))
    case Err(e) => Run(T.Rollback(c), Crashed(StoreError(e)))
    case Ok(found) =>
      if found then Run(c, Running)
      else if meta.None? then Run(T.Rollback(c), Crashed(MetadataMissing))
      else
        var first := InsertRecord(c, layout, location, file, p, meta.value);
        if !first.1.Returned? then Settle(first.0, first.1)
        else
          var second := InsertAnnotations(first.0, first.1.rowId, p.annotations);
          if !second.1.Returned? then Settle(second.0, second.1)
          else Run(T.Commit(second.0), Running)
  }

  /** The loop over the audio files; it ends at the first crash or hang. */
  function IngestAll(r: Run, layout: Schema.Layout, location: string, files: seq<Paths.Path>,
                     detect: Paths.Path -> Prediction, guano: Paths.Path -> Option<Metadata>): Run
    decreases |files|
  {
    if files == [] || !r.status.Running? then r
    else IngestAll(IngestFile(r.conn, layout, location, files[0], detect(files[0]), guano(files[0])),
                   layout, location, files[1..], detect, guano)
  }

  /** How a script's main ends: the directory held no audio, the loop went
      through every file, an uncaught error stopped it, or it retries forever. */
  datatype Ending = EmptyDirectory | Finished | Stopped(failure: Failure) | Hangs

  /** Leaving `with sqlite3.connect(db_path) as conn:` — a normal end commits;
      the rollback of an error has already happened. */
  function Conclude(r: Run): (T.Conn, Ending) {
    match r.status
    case Running => (T.Commit(r.conn), Finished)
    case Crashed(f) => (r.conn, Stopped(f))
    case Hung => (r.conn, Hangs)
  }

  /** location_id: the name of the directory that holds the audio directory. */
  function LocationOf(wavDir: Paths.Path): string {
    Paths.Name(Paths.Parent(wavDir))
  }

  // ---------------------------------------------------------------------
  // Properties

  /** The file is ready for a script: both tables exist, hold every column
      the script's inserts name, and only `file_name` is UNIQUE. */
  ghost predicate Ready(db: Db, layout: Schema.Layout) {
    && "records" in db && "annotations" in db
    && Prepare(db, RecordQuery(layout).op) == None
    && Prepare(db, AnnotationQuery().op) == None
    && db["records"].unique == {"file_name"}
    && db["annotations"].unique == {}
  }

  /** A schema create_schema lays down on a file without tables is ready for
      the script of the same layout, and the current one for the older script too. */
  lemma FreshSchemaReady(db: Db, layout: Schema.Layout, script: Schema.Layout)
    requires "records" !in db && "annotations" !in db
    requires layout == script || layout == Schema.Current
    ensures Ready(Schema.CreateSchema(db, layout), script)
  {
    var s := Schema.CreateSchema(db, layout);
    assert "file_name" in s["records"].columns;
    if layout == Schema.Current {
      assert forall c :: c in RecordInsertColumns(script) ==> c in Schema.RecordColumns;
    } else {
      assert forall c :: c in RecordInsertColumns(script) ==> c in Schema.LegacyRecordColumns;
    }
  }

  /** A file whose base name is already a stored file_name is skipped, and
      nothing changes. */
  lemma SkipsKnownFile(c: T.Conn, layout: Schema.Layout, location: string, file: Paths.Path,
                       p: Prediction, meta: Option<Metadata>)
    requires "records" in c.working && HasColumn(c.working["records"], "file_name")
    requires Named(c.working, Paths.Name(file))
    ensures IngestFile(c, layout, location, file, p, meta) == Run(c, Running)
  {
    RecordExistsIffNamed(c.working, Paths.Name(file));
  }

  /** The row INSERT_RECORD appends. */
  function NewRecord(db: Db, layout: Schema.Layout, location: string, file: Paths.Path, p: Prediction, m: Metadata): Row
    requires "records" in db
  {
    Row(NextId(db["records"].rows), Bind(RecordInsertColumns(layout), RecordArgs(layout, p, location, m, file)))
  }

  /** For a file not yet stored whose detector id is its base name, the record
      insert commits exactly one new row; its row id comes back unless the
      first attempt found the file locked. */
  lemma RecordInserted(c: T.Conn, layout: Schema.Layout, location: string, file: Paths.Path, p: Prediction, m: Metadata)
    requires c.working == c.committed && Ready(c.committed, layout)
    requires !Named(c.committed, Paths.Name(file)) && p.id == Text(Paths.Name(file))
    ensures var r := InsertRecord(c, layout, location, file, p, m);
            var db := c.committed;
            var row := NewRecord(db, layout, location, file, p, m);
            var k := T.LeadingLocks(c.contention);
            && r.0.committed == r.0.working == db["records" := db["records"].(rows := db["records"].rows + [row])]
            && r.0.contention == T.Drop(c.contention, k + 1)
            && r.1 == T.Returned(if k == 0 then Some(row.id) else None)
            && Extends(db, r.0.committed)
            && Named(r.0.committed, Paths.Name(file))
  {
    var db := c.committed;
    var q := RecordQuery(layout);
    var args := RecordArgs(layout, p, location, m, file);
    var row := NewRecord(db, layout, location, file, p, m);
    assert Get(row, "file_name") == p.id;
    assert !Clashes(db["records"], row);
    assert T.AttemptBase(c) == db;
    assert T.Args(Some(args)) == args;
    InsertAppends(db, "records", RecordInsertColumns(layout), args);
    T.ExecuteQuerySucceeds(c, q, Some(args));
    QueryText.RecordInsertsAreInserts();
    var rows' := db["records"].rows + [row];
    assert rows'[|rows'| - 1] == row;
  }

  /** The annotation rows are appended after everything else, in order, with
      consecutive fresh ids, all carrying the same record_id; no calls, no
      statement. */
  lemma AnnotationsInserted(c: T.Conn, layout: Schema.Layout, rowId: Option<nat>, calls: seq<Detection>)
    requires c.working == c.committed && Ready(c.committed, layout)
    ensures var r := InsertAnnotations(c, rowId, calls);
            var db := c.committed;
            var old_ := db["annotations"].rows;
            var added := NewRows(NextId(old_), Schema.AnnotationColumns, AnnotationRows(rowId, calls));
            && r.1 == T.Returned(None)
            && r.0.committed == r.0.working == db["annotations" := db["annotations"].(rows := old_ + added)]
            && Extends(db, r.0.committed)
  {
    var db := c.committed;
    var argsList := AnnotationRows(rowId, calls);
    var op := AnnotationQuery().op;
    if |calls| > 0 {
      assert T.AttemptBase(c) == db;
      var b := InsertManyAppends(db, "annotations", Schema.AnnotationColumns, argsList);
      InsertManyOnlyThatTable(db, "annotations", Schema.AnnotationColumns, argsList);
      InsertManyExtends(db, "annotations", Schema.AnnotationColumns, argsList);
      T.ExecuteManySucceeds(c, AnnotationQuery(), argsList);
    } else {
      var old_ := db["annotations"].rows;
      assert NewRows(NextId(old_), Schema.AnnotationColumns, argsList) == [];
      assert old_ + [] == old_;
      assert db["annotations" := db["annotations"].(rows := old_)] == db;
    }
  }

  /** A new file (not yet stored, detector id equal to its base name, with
      metadata) on a ready file ends with both inserts committed: one record
      and one annotation row per call tagged with the record's id, or NULL
      when the record insert was retried. */
  lemma NewFileIngested(c: T.Conn, layout: Schema.Layout, location: string, file: Paths.Path, p: Prediction, m: Metadata)
    requires c.working == c.committed && Ready(c.committed, layout)
    requires !Named(c.committed, Paths.Name(file)) && p.id == Text(Paths.Name(file))
    ensures var r := IngestFile(c, layout, location, file, p, Some(m));
            var db := c.committed;
            var row := NewRecord(db, layout, location, file, p, m);
            var db1 := db["records" := db["records"].(rows := db["records"].rows + [row])];
            var rowId := if T.LeadingLocks(c.contention) == 0 then Some(row.id) else None;
            var anns := db["annotations"].rows;
            var added := NewRows(NextId(anns), Schema.AnnotationColumns, AnnotationRows(rowId, p.annotations));
            && r.status == Running
            && r.conn.committed == r.conn.working
            && r.conn.committed == db1["annotations" := db["annotations"].(rows := anns + added)]
            && Extends(db, r.conn.committed)
            && Named(r.conn.committed, Paths.Name(file))
  {
    var db := c.committed;
    assert "records" in db && HasColumn(db["records"], "file_name");
    RecordExistsIffNamed(db, Paths.Name(file));
    RecordInserted(c, layout, location, file, p, m);
    var (c1, o1) := InsertRecord(c, layout, location, file, p, m);
    PrepareSchemaOnly(db, c1.committed, RecordQuery(layout).op);
    PrepareSchemaOnly(db, c1.committed, AnnotationQuery().op);
    AnnotationsInserted(c1, layout, o1.rowId, p.annotations);
    var (c2, o2) := InsertAnnotations(c1, o1.rowId, p.annotations);
    ExtendsTransitive(db, c1.committed, c2.committed);
    NamedKept(c1.committed, c2.committed, Paths.Name(file));
  }

  /** The current script's record: file_name is the detector id, location_id
      the directory's location, backup "no", record_path the full path. */
  lemma CurrentRecordFields(db: Db, location: string, file: Paths.Path, p: Prediction, m: Metadata)
    requires "records" in db
    ensures var row := NewRecord(db, Schema.Current, location, file, p, m);
            && Get(row, "file_name") == p.id
            && Get(row, "location_id") == Text(location)
            && Get(row, "serial") == m.serial && Get(row, "record_time") == m.timestamp
            && Get(row, "duration") == p.duration && Get(row, "class_name") == p.className
            && Get(row, "backup") == Text("no")
            && Get(row, "record_path") == Text(Paths.PathString(file))
  {
    var cols := RecordInsertColumns(Schema.Current);
    var args := RecordArgs(Schema.Current, p, location, m, file);
    assert Distinct(cols);
    BindReadsBack(cols, args, 0);
    BindReadsBack(cols, args, 1);
    BindReadsBack(cols, args, 2);
    BindReadsBack(cols, args, 3);
    BindReadsBack(cols, args, 4);
    BindReadsBack(cols, args, 5);
    BindReadsBack(cols, args, 6);
    BindReadsBack(cols, args, 7);
  }

  /** The older script's record: the six values, and no backup columns set. */
  lemma LegacyRecordFields(db: Db, location: string, file: Paths.Path, p: Prediction, m: Metadata)
    requires "records" in db
    ensures var row := NewRecord(db, Schema.Legacy, location, file, p, m);
            && Get(row, "file_name") == p.id
            && Get(row, "location_id") == Text(location)
            && Get(row, "serial") == m.serial && Get(row, "record_time") == m.timestamp
            && Get(row, "duration") == p.duration && Get(row, "class_name") == p.className
            && Get(row, "backup") == Null && Get(row, "record_path") == Null
  {
    var cols := SharedRecordColumns;
    var args := SharedRecordArgs(p, location, m);
    assert RecordInsertColumns(Schema.Legacy) == cols && RecordArgs(Schema.Legacy, p, location, m, file) == args;
    assert Distinct(cols);
    BindReadsBack(cols, args, 0);
    BindReadsBack(cols, args, 1);
    BindReadsBack(cols, args, 2);
    BindReadsBack(cols, args, 3);
    BindReadsBack(cols, args, 4);
    BindReadsBack(cols, args, 5);
    assert "backup" !in cols && "record_path" !in cols;
    BindOutside(cols, args, "backup");
    BindOutside(cols, args, "record_path");
  }

  /** Each appended annotation row carries the record_id and the fields of
      the call at the same position. */
  lemma AnnotationFields(first: nat, rowId: Option<nat>, calls: seq<Detection>, k: nat)
    requires k < |calls|
    ensures var row := NewRows(first, Schema.AnnotationColumns, AnnotationRows(rowId, calls))[k];
            && row.id == first + k
            && Get(row, "record_id") == RowIdVal(rowId)
            && Get(row, "start_time") == calls[k].startTime && Get(row, "end_time") == calls[k].endTime
            && Get(row, "low_freq") == calls[k].lowFreq && Get(row, "high_freq") == calls[k].highFreq
            && Get(row, "spp_class") == calls[k].speciesClass
            && Get(row, "class_prob") == calls[k].classProb && Get(row, "det_prob") == calls[k].detProb
            && Get(row, "individual") == calls[k].individual && Get(row, "event") == calls[k].event
  {
    var cols := Schema.AnnotationColumns;
    var args := AnnotationRows(rowId, calls)[k];
    assert Distinct(cols);
    BindReadsBack(cols, args, 0);
    BindReadsBack(cols, args, 1);
    BindReadsBack(cols, args, 2);
    BindReadsBack(cols, args, 3);
    BindReadsBack(cols, args, 4);
    BindReadsBack(cols, args, 5);
    BindReadsBack(cols, args, 6);
    BindReadsBack(cols, args, 7);
    BindReadsBack(cols, args, 8);
    BindReadsBack(cols, args, 9);
  }

  /** The record is committed before the annotations are written: at the
      moment the annotation helper starts, the file holds the new record and
      none of its annotations. A run that stops there leaves the record
      without annotations, and every later run skips the file. */
  lemma RecordCommittedFirst(c: T.Conn, layout: Schema.Layout, location: string, file: Paths.Path,
                             p: Prediction, m: Metadata, later: T.Conn, m': Option<Metadata>, p': Prediction)
    requires c.working == c.committed && Ready(c.committed, layout)
    requires !Named(c.committed, Paths.Name(file)) && p.id == Text(Paths.Name(file))
    requires later.working == later.committed == InsertRecord(c, layout, location, file, p, m).0.committed
    ensures var c1 := InsertRecord(c, layout, location, file, p, m).0;
            && "annotations" in c1.committed
            && c1.committed["annotations"] == c.committed["annotations"]
            && Named(c1.committed, Paths.Name(file))
            && IngestFile(later, layout, location, file, p', m') == Run(later, Running)
  {
    RecordInserted(c, layout, location, file, p, m);
    var c1 := InsertRecord(c, layout, location, file, p, m).0;
    SkipsKnownFile(later, layout, location, file, p', m');
  }

  /** The current script on a file with the older schema: INSERT_RECORD
      names columns the table lacks, an OperationalError on every attempt,
      so execute_query retries forever, with the file as it was. */
  lemma CurrentScriptHangsOnLegacySchema(c: T.Conn, location: string, file: Paths.Path, p: Prediction, m: Metadata)
    requires c.working == c.committed && "records" in c.committed
    requires c.committed["records"].columns == Schema.LegacyRecordColumns
    requires !Named(c.committed, Paths.Name(file))
    ensures var r := IngestFile(c, Schema.Current, location, file, p, Some(m));
            r.status == Hung && r.conn.committed == r.conn.working == c.committed
  {
    assert "backup" in RecordInsertColumns(Schema.Current);
    assert "backup" !in Schema.LegacyRecordColumns;
    assert Prepare(c.committed, RecordQuery(Schema.Current).op) == Some(NoSuchColumn);
    T.ExecuteQueryDiverges(c, RecordQuery(Schema.Current), Some(RecordArgs(Schema.Current, p, location, m, file)));
    assert HasColumn(c.committed["records"], "file_name");
    RecordExistsIffNamed(c.committed, Paths.Name(file));
  }

  /** A run over files whose base names are all stored changes nothing:
      running the ingestion twice over the same files adds no rows. */
  lemma {:induction false} RerunChangesNothing(c: T.Conn, layout: Schema.Layout, location: string, files: seq<Paths.Path>,
                                               detect: Paths.Path -> Prediction, guano: Paths.Path -> Option<Metadata>)
    requires "records" in c.working && HasColumn(c.working["records"], "file_name")
    requires forall i :: 0 <= i < |files| ==> Named(c.working, Paths.Name(files[i]))
    ensures IngestAll(Run(c, Running), layout, location, files, detect, guano) == Run(c, Running)
    decreases |files|
  {
    if files != [] {
      SkipsKnownFile(c, layout, location, files[0], detect(files[0]), guano(files[0]));
      RerunChangesNothing(c, layout, location, files[1..], detect, guano);
    }
  }

  /** Every step of a run keeps the file ready, with nothing pending, and
      only ever appends rows. */
  lemma IngestFileExtends(c: T.Conn, layout: Schema.Layout, location: string, file: Paths.Path,
                          p: Prediction, meta: Option<Metadata>)
    requires c.working == c.committed && Ready(c.committed, layout)
    requires p.id == Text(Paths.Name(file))
    ensures var r := IngestFile(c, layout, location, file, p, meta);
            && r.status != Hung
            && r.conn.working == r.conn.committed
            && Extends(c.committed, r.conn.committed)
            && Ready(r.conn.committed, layout)
            && (meta.Some? ==> r.status == Running && Named(r.conn.committed, Paths.Name(file)))
  {
    var db := c.committed;
    assert "records" in db && HasColumn(db["records"], "file_name");
    RecordExistsIffNamed(db, Paths.Name(file));
    if Named(db, Paths.Name(file)) {
      SkipsKnownFile(c, layout, location, file, p, meta);
    } else if meta.Some? {
      NewFileIngested(c, layout, location, file, p, meta.value);
      var r := IngestFile(c, layout, location, file, p, meta);
      PrepareSchemaOnly(db, r.conn.committed, RecordQuery(layout).op);
      PrepareSchemaOnly(db, r.conn.committed, AnnotationQuery().op);
    }
  }

  /** On a ready file, a run whose files all carry metadata and whose
      detector ids are their base names goes through all of them, leaves
      every one stored, and only appends rows. */
  lemma {:induction false} IngestAllStoresEveryFile(c: T.Conn, layout: Schema.Layout, location: string, files: seq<Paths.Path>,
                                                    detect: Paths.Path -> Prediction, guano: Paths.Path -> Option<Metadata>)
    requires c.working == c.committed && Ready(c.committed, layout)
    requires forall i :: 0 <= i < |files| ==> detect(files[i]).id == Text(Paths.Name(files[i])) && guano(files[i]).Some?
    ensures var r := IngestAll(Run(c, Running), layout, location, files, detect, guano);
            && r.conn.working == r.conn.committed
            && Extends(c.committed, r.conn.committed)
            && Ready(r.conn.committed, layout)
            && r.status == Running
            && forall i :: 0 <= i < |files| ==> Named(r.conn.committed, Paths.Name(files[i]))
    decreases |files|
  {
    if files != [] {
      var f := files[0];
      IngestFileExtends(c, layout, location, f, detect(f), guano(f));
      var r1 := IngestFile(c, layout, location, f, detect(f), guano(f));
      IngestAllStoresEveryFile(r1.conn, layout, location, files[1..], detect, guano);
      var r := IngestAll(Run(c, Running), layout, location, files, detect, guano);
      ExtendsTransitive(c.committed, r1.conn.committed, r.conn.committed);
      NamedKept(r1.conn.committed, r.conn.committed, Paths.Name(f));
      forall i | 0 <= i < |files| ensures Named(r.conn.committed, Paths.Name(files[i])) {
        if i > 0 {
          assert files[i] == files[1..][i - 1];
        }
      }
    }
  }
}
